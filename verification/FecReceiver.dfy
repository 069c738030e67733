/** Rebuilding lost records from parity on the receiving side (fecReceiver in tunnel/fec.go). Times are in nanoseconds.
    The order in which a map is walked is arbitrary and shows up as a parameter. */
module FecReceiver {

  import opened Common
  import opened FecFrame
  import opened FecShards

  const RECENT_LIMIT: nat := 64
  const RECENT_HARD_LIMIT: nat := 128
  const BLOCKS_MAX: nat := 16
  const BLOCK_TTL: int := 2_000_000_000

  datatype Recovered = Recovered(seqNo: nat, payload: Bytes)

  datatype Block = Block(base: nat, k: nat, m: nat, size: nat, parity: seq<Option<Bytes>>, updated: int)

  datatype Receiver = Receiver(recent: map<nat, Bytes>, highest: nat, lastPrune: nat, blocks: map<nat, Block>, ext: bool)

  datatype Outcome = Outcome(next: Receiver, out: seq<Recovered>)

  // ---- trying one block ----

  /** Positions of the block with no data at hand, ascending. */
  function Missing(recent: map<nat, Bytes>, base: nat, k: nat): (missing: seq<nat>)
    ensures |missing| <= k
    ensures forall j | 0 <= j < |missing| :: missing[j] < k && Number(base, missing[j]) !in recent
  {
    if k == 0 then [] else Missing(recent, base, k - 1) + if Number(base, k - 1) in recent then [] else [k - 1]
  }

  lemma {:induction false} MissingComplete(recent: map<nat, Bytes>, base: nat, k: nat, i: nat)
    requires i < k && Number(base, i) !in recent
    ensures i in Missing(recent, base, k)
  {
    if i < k - 1 {
      MissingComplete(recent, base, k - 1, i);
    }
  }

  predicate TooLong(recent: map<nat, Bytes>, base: nat, k: nat, size: nat) {
    exists i | 0 <= i < k :: Number(base, i) in recent && |recent[Number(base, i)]| > size - PREFIX
  }

  function Slot(recent: map<nat, Bytes>, number: nat, size: nat): Option<Bytes> {
    if number in recent && PREFIX + |recent[number]| <= size then Some(DataShard(recent[number], size))
    else None
  }

  function Slots(recent: map<nat, Bytes>, base: nat, k: nat, size: nat): (slots: seq<Option<Bytes>>)
    ensures |slots| == k
    ensures forall i | 0 <= i < k :: slots[i] == Slot(recent, Number(base, i), size)
  {
    seq(k, i requires 0 <= i < k => Slot(recent, Number(base, i), size))
  }

  /** Reading the missing payloads out of the rebuilt shards, caching each; None as soon as one is malformed. */
  datatype Extraction = Extraction(recent: map<nat, Bytes>, out: Option<seq<Recovered>>)

  function Extract(recent: map<nat, Bytes>, base: nat, size: nat, missing: seq<nat>, shards: seq<Bytes>,
                   out: seq<Recovered>): Extraction
    requires forall j | 0 <= j < |missing| :: missing[j] < |shards|
    requires size >= PREFIX
    decreases |missing|
  {
    if missing == [] then Extraction(recent, Some(out))
    else
      var shard := shards[missing[0]];
      if |shard| != size || PayloadOf(shard).None? then Extraction(recent, None)
      else
        var number, payload := Number(base, missing[0]), PayloadOf(shard).value;
        Extract(recent[number := payload], base, size, missing[1..], shards, out + [Recovered(number, payload)])
  }

  predicate Shaped(b: Block) { b.size >= PREFIX && |b.parity| == b.m }

  function Tried(codec: Codec, r: Receiver, base: nat): (o: Outcome)
    requires base in r.blocks && Shaped(r.blocks[base])
    ensures o.next.ext == r.ext
  {
    var b := r.blocks[base];
    var missing := Missing(r.recent, base, b.k);
    if TooLong(r.recent, base, b.k, b.size) then Outcome(r, [])
    else if missing == [] then Outcome(r.(blocks := r.blocks - {base}), [])
    else if Present(b.parity) < |missing| then Outcome(r, [])
    else
      var shards := codec.rebuild(Slots(r.recent, base, b.k, b.size) + b.parity, b.k);
      if shards.None? || |shards.value| != b.k then Outcome(r, [])
      else
        var e := Extract(r.recent, base, b.size, missing, shards.value, []);
        if e.out.None? then Outcome(r.(recent := e.recent), [])
        else Outcome(r.(recent := e.recent, blocks := r.blocks - {base}), e.out.value)
  }

  // ---- the cache of recent data ----

  function Retained(r: Receiver, seqNo: nat, payload: Bytes): Receiver {
    if seqNo in r.recent then r
    else r.(recent := r.recent[seqNo := payload], highest := if seqNo > r.highest then seqNo else r.highest)
  }

  /** The first copy of a record is cached and may raise the highest number; a later one changes nothing. */
  lemma RetainedExactly(r: Receiver, seqNo: nat, payload: Bytes)
    ensures var g := Retained(r, seqNo, payload);
            && g.recent == (if seqNo in r.recent then r.recent else r.recent[seqNo := payload])
            && g.highest == (if seqNo !in r.recent && seqNo > r.highest then seqNo else r.highest)
            && g == r.(recent := g.recent, highest := g.highest)
  {
  }

  predicate CutDue(highest: nat, lastPrune: nat) {
    highest > RECENT_LIMIT && highest - lastPrune >= DATA_MAX
  }

  function From(recent: map<nat, Bytes>, cutoff: nat): map<nat, Bytes> {
    map s | s in recent && s >= cutoff :: recent[s]
  }

  ghost function KeepLargest(recent: map<nat, Bytes>, n: nat): (kept: map<nat, Bytes>)
    ensures |kept| <= n
    ensures forall s | s in kept :: s in recent && kept[s] == recent[s]
    decreases |recent|
  {
    if |recent| <= n then recent
    else
      assert recent.Keys != {} by { assert |recent.Keys| == |recent|; }
      var lo := MinOf(recent.Keys);
      Smaller(recent, lo);
      KeepLargest(recent - {lo}, n)
  }

  lemma Smaller<T>(m: map<nat, T>, key: nat)
    requires key in m
    ensures |m - {key}| == |m| - 1
  {
    assert (m - {key}).Keys == m.Keys - {key};
    assert |m.Keys| == |m| && |(m - {key}).Keys| == |m - {key}|;
  }

  /** What the hard cap evicts is older than everything it keeps, and it evicts no more than it must. */
  lemma {:induction false} KeepLargestMeaning(recent: map<nat, Bytes>, n: nat)
    ensures var kept := KeepLargest(recent, n);
            && |kept| == Min(n, |recent|)
            && forall a, b | a in kept && b in recent && b !in kept :: b < a
    decreases |recent|
  {
    if |recent| > n {
      assert recent.Keys != {} by { assert |recent.Keys| == |recent|; }
      var lo := MinOf(recent.Keys);
      Smaller(recent, lo);
      KeepLargestMeaning(recent - {lo}, n);
    }
  }

  ghost function Tidied(r: Receiver): Receiver {
    var due := CutDue(r.highest, r.lastPrune);
    r.(recent := KeepLargest(Cut(r), RECENT_HARD_LIMIT), lastPrune := if due then r.highest else r.lastPrune)
  }

  function Cut(r: Receiver): map<nat, Bytes> {
    if CutDue(r.highest, r.lastPrune) then From(r.recent, r.highest - RECENT_LIMIT) else r.recent
  }

  /** What tidying the cache does: every eight new numbers, once past 64, it drops what lies more than 64 below the
      highest; and it evicts the oldest of what is left beyond 128. Nothing else goes. */
  lemma TidiedExactly(r: Receiver)
    ensures var g := Tidied(r);
            var due := r.highest > 64 && r.highest - r.lastPrune >= 8;
            && g == r.(recent := g.recent, lastPrune := if due then r.highest else r.lastPrune)
            && (forall s | s in g.recent :: s in r.recent && g.recent[s] == r.recent[s] && (due ==> s + 64 >= r.highest))
            && |g.recent| <= 128
            && (forall s | s in r.recent && s !in g.recent ::
                  || (due && s + 64 < r.highest)
                  || (|g.recent| == 128 && forall kept | kept in g.recent :: s < kept))
  {
    KeepLargestMeaning(Cut(r), RECENT_HARD_LIMIT);
    var kept := KeepLargest(Cut(r), RECENT_HARD_LIMIT);
    assert |Cut(r)| <= 128 ==> kept == Cut(r);
  }

  // ---- the blocks waiting for shards ----

  predicate Fresh(b: Block, now: int) { now - b.updated <= BLOCK_TTL }

  function Unexpired(blocks: map<nat, Block>, now: int): map<nat, Block> {
    map base | base in blocks && Fresh(blocks[base], now) :: blocks[base]
  }

  /** A choice of blocks to keep: all that are fresh while they fit, otherwise as many of the newest as fit. */
  predicate Keeps(blocks: map<nat, Block>, now: int, kept: map<nat, Block>) {
    var live := Unexpired(blocks, now);
    && (forall base | base in kept :: base in live && kept[base] == live[base])
    && |kept| == Min(BLOCKS_MAX, |live|)
    && (forall a, b | a in live && a !in kept && b in kept :: live[a].updated <= kept[b].updated)
  }

  /** A block goes only when nothing touched it for two seconds, or sixteen others are no older. */
  lemma DropsOnlyStale(blocks: map<nat, Block>, now: int, kept: map<nat, Block>, base: nat)
    requires Keeps(blocks, now, kept) && base in blocks
    ensures base in kept ==> kept[base] == blocks[base] && now - blocks[base].updated <= 2_000_000_000
    ensures base !in kept ==>
              || now - blocks[base].updated > 2_000_000_000
              || (|kept| == 16 && forall b | b in kept :: blocks[base].updated <= kept[b].updated)
    ensures |kept| <= 16
  {
    var live := Unexpired(blocks, now);
    if base in live && base !in kept {
      ProperSubsetSmaller(kept.Keys, live.Keys);
      assert |kept.Keys| == |kept| && |live.Keys| == |live|;
    }
  }

  // ---- events ----

  /** The block's numbers, as the original compares them: the end wraps at 64 bits. */
  predicate Touches(b: Block, seqNo: nat) {
    b.base <= seqNo < (b.base + b.k) % (MAX_SEQ + 1)
  }

  predicate AllShaped(blocks: map<nat, Block>) {
    forall base | base in blocks :: Shaped(blocks[base])
  }

  lemma TriedShaped(codec: Codec, r: Receiver, base: nat)
    requires AllShaped(r.blocks) && base in r.blocks
    ensures AllShaped(Tried(codec, r, base).next.blocks)
    ensures Tried(codec, r, base).next.blocks in {r.blocks, r.blocks - {base}}
  {
  }

  /** Trying every block that holds seqNo, in the order the map yields them. */
  function TriedAll(codec: Codec, r: Receiver, seqNo: nat, order: seq<nat>): (o: Outcome)
    requires AllShaped(r.blocks)
    ensures AllShaped(o.next.blocks) && o.next.ext == r.ext
  {
    if order == [] then Outcome(r, [])
    else
      var before := TriedAll(codec, r, seqNo, order[..|order| - 1]);
      var base := order[|order| - 1];
      if base in before.next.blocks && Touches(before.next.blocks[base], seqNo) then
        var o := Tried(codec, before.next, base);
        Outcome(o.next, before.out + o.out)
      else before
  }

  function Insert(x: Recovered, s: seq<Recovered>): (r: seq<Recovered>)
    ensures multiset(r) == multiset(s) + multiset{x}
  {
    if s == [] || x.seqNo <= s[0].seqNo then [x] + s
    else
      assert s == [s[0]] + s[1..];
      [s[0]] + Insert(x, s[1..])
  }

  function Sorted(s: seq<Recovered>): (r: seq<Recovered>)
    ensures multiset(r) == multiset(s)
  {
    if s == [] then []
    else
      assert s == [s[0]] + s[1..];
      Insert(s[0], Sorted(s[1..]))
  }

  /** A data record arrives; `order` and `kept` are the walk and the choice the maps happened to make. */
  ghost predicate DataEvent(codec: Codec, r: Receiver, seqNo: nat, payload: Bytes, now: int, order: seq<nat>,
                            o: Outcome)
    requires AllShaped(r.blocks)
  {
    if seqNo == 0 then o == Outcome(r, [])
    else
      var tidy := Tidied(Retained(r, seqNo, payload));
      var tried := TriedAll(codec, tidy, seqNo, order);
      && Distinct(order) && (forall base :: base in order <==> base in r.blocks)
      && Keeps(tried.next.blocks, now, o.next.blocks)
      && o == Outcome(tried.next.(blocks := o.next.blocks), Sorted(tried.out))
  }

  function WithParity(r: Receiver, p: Parity, now: int): (o: Option<Receiver>)
    requires p.k >= 1 && p.m >= 1 && 0 <= p.index < p.m
    requires AllShaped(r.blocks)
    ensures o.Some? ==> o.value.ext == r.ext
  {
    var b := if p.base in r.blocks then r.blocks[p.base]
             else Block(p.base, p.k, p.m, |p.data|, Empties(p.m), now);
    if b.k != p.k || b.m != p.m || b.size != |p.data| then None
    else
      var parity := if b.parity[p.index].None? then b.parity[p.index := Some(p.data)] else b.parity;
      Some(r.(blocks := r.blocks[p.base := b.(parity := parity, updated := now)]))
  }

  /** The frame describes the block the receiver already has under its base, if any. */
  predicate Matches(r: Receiver, p: Parity) {
    p.base in r.blocks ==>
      r.blocks[p.base].k == p.k && r.blocks[p.base].m == p.m && r.blocks[p.base].size == |p.data|
  }

  /** A parity shard is filed exactly when it matches; it then fills its own slot if that was empty, restarts the block's
      clock, and leaves every other slot, block and record alone. */
  lemma FiledExactly(r: Receiver, p: Parity, now: int)
    requires p.k >= 1 && p.m >= 1 && 0 <= p.index < p.m && AllShaped(r.blocks)
    ensures WithParity(r, p, now).Some? <==> Matches(r, p)
    ensures WithParity(r, p, now).Some? ==>
              var g := WithParity(r, p, now).value;
              && g == r.(blocks := g.blocks) && g.blocks.Keys == r.blocks.Keys + {p.base}
              && (forall base | base in r.blocks && base != p.base :: g.blocks[base] == r.blocks[base])
              && var b := g.blocks[p.base];
                 && b.k == p.k && b.m == p.m == |b.parity| && b.size == |p.data| && b.updated == now
                 && (p.base !in r.blocks ==> b.base == p.base && b.parity[p.index] == Some(p.data)
                                             && forall i | 0 <= i < p.m && i != p.index :: b.parity[i].None?)
                 && (p.base in r.blocks ==>
                       var was := r.blocks[p.base];
                       && b.base == was.base
                       && b.parity[p.index] == (if was.parity[p.index].Some? then was.parity[p.index] else Some(p.data))
                       && forall i | 0 <= i < p.m && i != p.index :: b.parity[i] == was.parity[i])
  {
    if p.base in r.blocks {
      assert Shaped(r.blocks[p.base]);
    }
  }

  /** How many parity shards of the frame's block are at hand once it is filed. */
  function HeldWith(r: Receiver, p: Parity): nat
    requires 0 <= p.index < p.m && AllShaped(r.blocks) && Matches(r, p)
  {
    if p.base !in r.blocks then 1
    else
      var parity := r.blocks[p.base].parity;
      assert Shaped(r.blocks[p.base]);
      Present(parity) + if parity[p.index].None? then 1 else 0
  }

  lemma HeldAfterFiling(r: Receiver, p: Parity, now: int)
    requires p.k >= 1 && p.m >= 1 && 0 <= p.index < p.m && AllShaped(r.blocks) && Matches(r, p)
    ensures WithParity(r, p, now).Some?
    ensures Present(WithParity(r, p, now).value.blocks[p.base].parity) == HeldWith(r, p)
  {
    if p.base in r.blocks {
      assert Shaped(r.blocks[p.base]);
      if r.blocks[p.base].parity[p.index].None? {
        PresentFill(r.blocks[p.base].parity, p.index, p.data);
      }
    } else {
      PresentEmpties(Empties(p.m));
      PresentFill(Empties(p.m), p.index, p.data);
    }
  }

  lemma {:induction false} PresentFill(shards: seq<Option<Bytes>>, i: nat, shard: Bytes)
    requires i < |shards| && shards[i].None?
    ensures Present(shards[i := Some(shard)]) == Present(shards) + 1
  {
    var n := |shards| - 1;
    var filled := shards[i := Some(shard)];
    if i == n {
      assert filled[..n] == shards[..n];
    } else {
      PresentFill(shards[..n], i, shard);
      assert filled[..n] == shards[..n][i := Some(shard)];
    }
  }

  lemma {:induction false} PresentEmpties(shards: seq<Option<Bytes>>)
    requires forall i | 0 <= i < |shards| :: shards[i].None?
    ensures Present(shards) == 0
  {
    if shards == [] {
    } else {
      PresentEmpties(shards[..|shards| - 1]);
    }
  }

  function Empties(m: nat): (e: seq<Option<Bytes>>)
    ensures |e| == m && forall i | 0 <= i < m :: e[i] == None
  {
    seq(m, _ => None)
  }

  /** A parity frame arrives. */
  predicate ParityEvent(codec: Codec, r: Receiver, frame: Frame, now: int, o: Outcome)
    requires AllShaped(r.blocks)
  {
    var p := Parsed(frame, r.ext);
    if p.None? || WithParity(r, p.value, now).None? then o == Outcome(r, [])
    else
      var tried := Tried(codec, WithParity(r, p.value, now).value, p.value.base);
      && Keeps(tried.next.blocks, now, o.next.blocks)
      && o == Outcome(tried.next.(blocks := o.next.blocks), Sorted(tried.out))
  }

  // ---- the object ----

  class FecReceiver {
    var recent: map<nat, Bytes>
    var highest: nat
    var lastPrune: nat
    var blocks: map<nat, Block>
    const extParity: bool
    const codec: Codec

    function State(): Receiver
      reads this
    {
      Receiver(recent, highest, lastPrune, blocks, extParity)
    }

    constructor (c: Codec, ext: bool)
      ensures State() == Receiver(map[], 0, 0, map[], ext) && codec == c
    {
      recent, highest, lastPrune, blocks, extParity, codec := map[], 0, 0, map[], ext, c;
    }

    method OnData(seqNo: nat, payload: Bytes, now: int) returns (out: seq<Recovered>, ghost order: seq<nat>)
      requires AllShaped(blocks)
      modifies this
      ensures AllShaped(blocks)
      ensures DataEvent(codec, old(State()), seqNo, payload, now, order, Outcome(State(), out))
    {
      out, order := [], [];
      if seqNo == 0 { return; }
      if seqNo !in recent {
        recent := recent[seqNo := payload];
        if seqNo > highest { highest := seqNo; }
      }
      PruneRecent();
      ghost var tidy := State();
      out, order := TryTouched(seqNo);
      PruneBlocks(now);
      out := Sorted(out);
    }

    /** The walk over the blocks that hold seqNo, in whatever order the map yields them. */
    method TryTouched(seqNo: nat) returns (out: seq<Recovered>, ghost order: seq<nat>)
      requires AllShaped(blocks)
      modifies this
      ensures TriedAll(codec, old(State()), seqNo, order) == Outcome(State(), out)
      ensures Distinct(order) && forall base :: base in order <==> base in old(blocks)
    {
      out, order := [], [];
      var todo := blocks.Keys;
      while todo != {}
        invariant Outcome(State(), out) == TriedAll(codec, old(State()), seqNo, order)
        invariant forall base :: base in order <==> base in old(blocks) && base !in todo
        invariant forall base | base in todo :: base in blocks && base in old(blocks)
        invariant Distinct(order)
        decreases |todo|
      {
        var base :| base in todo;
        todo := todo - {base};
        ghost var walked := order;
        order := order + [base];
        assert order[..|walked|] == walked;
        if Touches(blocks[base], seqNo) {
          TriedShaped(codec, State(), base);
          var found := TryRecover(base);
          out := out + found;
        }
      }
    }

    method OnParityFrame(frame: Frame, now: int) returns (out: seq<Recovered>)
      requires AllShaped(blocks)
      modifies this
      ensures AllShaped(blocks)
      ensures ParityEvent(codec, old(State()), frame, now, Outcome(State(), out))
    {
      var p := Parsed(frame, extParity);
      if p.None? { return []; }
      var f := p.value;
      var block := Block(f.base, f.k, f.m, |f.data|, Empties(f.m), now);
      if f.base in blocks {
        block := blocks[f.base];
        if block.k != f.k || block.m != f.m || block.size != |f.data| { return []; }
      }
      block := block.(updated := now);
      if block.parity[f.index].None? {
        block := block.(parity := block.parity[f.index := Some(f.data)]);
      }
      blocks := blocks[f.base := block];
      assert Some(State()) == WithParity(old(State()), f, now);
      TriedShaped(codec, State(), f.base);
      out := TryRecover(f.base);
      PruneBlocks(now);
      out := Sorted(out);
    }

    method TryRecover(base: nat) returns (out: seq<Recovered>)
      requires base in blocks && Shaped(blocks[base])
      modifies this
      ensures Tried(codec, old(State()), base) == Outcome(State(), out)
    {
      out := [];
      var b := blocks[base];
      var tooLong, available, missingCount := Survey(recent, b, base);
      if tooLong { return; }
      if missingCount == 0 {
        blocks := blocks - {base};
        return;
      }
      var held := CountHeld(b.parity);
      available := available + held;
      if available < b.k || missingCount > b.m { return; }
      var slots, missing := Gather(recent, b, base);
      var shards := codec.rebuild(slots + b.parity, b.k);
      if shards.None? || |shards.value| != b.k { return; }
      var cache, found := ExtractAll(recent, b, base, missing, shards.value);
      recent := cache;
      if found.None? { return; }
      blocks := blocks - {base};
      out := found.value;
    }

    method PruneRecent()
      modifies this
      ensures State() == Tidied(old(State()))
    {
      if CutDue(highest, lastPrune) {
        var cutoff: nat := highest - RECENT_LIMIT;
        recent := DropBelow(recent, cutoff);
        lastPrune := highest;
      }
      assert recent == Cut(old(State()));
      recent := DropOldest(recent);
    }

    method PruneBlocks(now: int)
      modifies this
      ensures Keeps(old(blocks), now, blocks)
      ensures State() == old(State()).(blocks := blocks)
    {
      ghost var live := Unexpired(blocks, now);
      blocks := DropExpired(blocks, now);
      while |blocks| > BLOCKS_MAX
        invariant State() == old(State()).(blocks := blocks)
        invariant forall base | base in blocks :: base in live && blocks[base] == live[base]
        invariant |blocks| == |live| || |blocks| >= BLOCKS_MAX
        invariant |blocks| <= |live|
        invariant forall a, b | a in live && a !in blocks && b in blocks :: live[a].updated <= blocks[b].updated
        invariant |blocks| < |live| ==> |live| > BLOCKS_MAX
        decreases |blocks|
      {
        var oldest := Oldest(blocks);
        Smaller(blocks, oldest);
        blocks := blocks - {oldest};
      }
    }
  }

  /** The counting pass over a block. */
  method Survey(recent: map<nat, Bytes>, b: Block, base: nat) returns (tooLong: bool, available: nat, missing: nat)
    ensures tooLong == TooLong(recent, base, b.k, b.size)
    ensures !tooLong ==> missing == |Missing(recent, base, b.k)| && available == b.k - missing
  {
    tooLong, available, missing := false, 0, 0;
    var i := 0;
    while i < b.k
      invariant 0 <= i <= b.k
      invariant !TooLong(recent, base, i, b.size)
      invariant missing == |Missing(recent, base, i)| && available == i - missing
    {
      if Number(base, i) in recent {
        if |recent[Number(base, i)]| > b.size - PREFIX {
          return true, available, missing;
        }
        available := available + 1;
      } else {
        missing := missing + 1;
      }
      i := i + 1;
    }
  }

  method CountHeld(parity: seq<Option<Bytes>>) returns (n: nat)
    ensures n == Present(parity)
  {
    n := 0;
    var i := 0;
    while i < |parity|
      invariant 0 <= i <= |parity|
      invariant n == Present(parity[..i])
    {
      assert parity[..i + 1][..i] == parity[..i];
      if parity[i].Some? { n := n + 1; }
      i := i + 1;
    }
    assert parity[..i] == parity;
  }

  /** The pass that lays out the data shards at hand. */
  method Gather(recent: map<nat, Bytes>, b: Block, base: nat)
    returns (slots: seq<Option<Bytes>>, missing: seq<nat>)
    requires !TooLong(recent, base, b.k, b.size)
    ensures slots == Slots(recent, base, b.k, b.size)
    ensures missing == Missing(recent, base, b.k)
  {
    slots, missing := [], [];
    var i := 0;
    while i < b.k
      invariant 0 <= i <= b.k && |slots| == i
      invariant forall j | 0 <= j < i :: slots[j] == Slot(recent, Number(base, j), b.size)
      invariant missing == Missing(recent, base, i)
    {
      if Number(base, i) in recent {
        var payload := recent[Number(base, i)];
        var shard := FillShard(payload, b.size);
        slots := slots + [Some(shard)];
      } else {
        missing := missing + [i];
        slots := slots + [None];
      }
      i := i + 1;
    }
  }

  method ExtractAll(recent: map<nat, Bytes>, b: Block, base: nat, missing: seq<nat>, shards: seq<Bytes>)
    returns (cache: map<nat, Bytes>, found: Option<seq<Recovered>>)
    requires b.size >= PREFIX && forall j | 0 <= j < |missing| :: missing[j] < |shards|
    ensures Extract(recent, base, b.size, missing, shards, []) == Extraction(cache, found)
  {
    cache := recent;
    var out: seq<Recovered> := [];
    var i := 0;
    while i < |missing|
      invariant 0 <= i <= |missing|
      invariant Extract(cache, base, b.size, missing[i..], shards, out)
                == Extract(recent, base, b.size, missing, shards, [])
    {
      assert missing[i..][1..] == missing[i + 1..];
      var shard := shards[missing[i]];
      if |shard| != b.size { return cache, None; }
      var n := BytesUint16(shard);
      if n > b.size - PREFIX { return cache, None; }
      var payload := shard[PREFIX..PREFIX + n];
      cache := cache[Number(base, missing[i]) := payload];
      out := out + [Recovered(Number(base, missing[i]), payload)];
      i := i + 1;
    }
    found := Some(out);
  }

  method DropBelow(recent: map<nat, Bytes>, cutoff: nat) returns (rest: map<nat, Bytes>)
    ensures rest == From(recent, cutoff)
  {
    rest := recent;
    var todo := recent.Keys;
    while todo != {}
      invariant todo <= recent.Keys
      invariant forall s :: s in rest <==> s in recent && (s in todo || s >= cutoff)
      invariant forall s | s in rest :: rest[s] == recent[s]
      decreases |todo|
    {
      var s :| s in todo;
      todo := todo - {s};
      if s < cutoff { rest := rest - {s}; }
    }
  }

  method DropOldest(recent: map<nat, Bytes>) returns (rest: map<nat, Bytes>)
    ensures rest == KeepLargest(recent, RECENT_HARD_LIMIT)
  {
    rest := recent;
    while |rest| > RECENT_HARD_LIMIT
      invariant KeepLargest(rest, RECENT_HARD_LIMIT) == KeepLargest(recent, RECENT_HARD_LIMIT)
      decreases |rest|
    {
      assert |rest.Keys| == |rest|;
      var lo := Least(rest.Keys);
      Smaller(rest, lo);
      rest := rest - {lo};
    }
  }

  method Least(keys: set<nat>) returns (lo: nat)
    requires keys != {}
    ensures lo == MinOf(keys)
  {
    lo :| lo in keys;
    var todo := keys;
    while todo != {}
      invariant todo <= keys && lo in keys
      invariant forall s | s in keys && s !in todo :: lo <= s
      decreases |todo|
    {
      var s :| s in todo;
      todo := todo - {s};
      if s < lo { lo := s; }
    }
  }

  method DropExpired(blocks: map<nat, Block>, now: int) returns (rest: map<nat, Block>)
    ensures rest == Unexpired(blocks, now)
  {
    rest := blocks;
    var todo := blocks.Keys;
    while todo != {}
      invariant todo <= blocks.Keys
      invariant forall base :: base in rest <==> base in blocks && (base in todo || Fresh(blocks[base], now))
      invariant forall base | base in rest :: rest[base] == blocks[base]
      decreases |todo|
    {
      var base :| base in todo;
      todo := todo - {base};
      if now - blocks[base].updated > BLOCK_TTL { rest := rest - {base}; }
    }
  }

  method Oldest(blocks: map<nat, Block>) returns (oldest: nat)
    requires |blocks| > 0
    ensures oldest in blocks && forall base | base in blocks :: blocks[oldest].updated <= blocks[base].updated
  {
    assert |blocks.Keys| == |blocks|;
    assert blocks.Keys != {};
    oldest :| oldest in blocks.Keys;
    var todo := blocks.Keys;
    while todo != {}
      invariant todo <= blocks.Keys && oldest in blocks
      invariant forall base | base in blocks && base !in todo :: blocks[oldest].updated <= blocks[base].updated
      decreases |todo|
    {
      var base :| base in todo;
      todo := todo - {base};
      if blocks[base].updated < blocks[oldest].updated { oldest := base; }
    }
  }
}
