/** What forward error correction promises, for a codec in which any k shards determine the data: whatever arrives and
    in whatever order, a rebuilt record is the record the sender sent. */
module FecTheorems {

  import opened Common
  import opened FecFrame
  import opened FecShards
  import opened FecReceiver
  import S = FecSender

  // ---- what the receiver holds is true ----

  predicate CacheTrue(sent: map<nat, Bytes>, recent: map<nat, Bytes>) {
    forall s | s in recent :: s in sent && recent[s] == sent[s]
  }

  predicate ShardsTrue(shards: seq<Option<Bytes>>, encoded: seq<Bytes>) {
    |shards| == |encoded| && forall j | 0 <= j < |shards| && shards[j].Some? :: shards[j].value == encoded[j]
  }

  predicate BlockTrue(codec: Codec, sent: map<nat, Bytes>, base: nat, b: Block) {
    && b.base == base
    && BlockOf(sent, base, b.k, b.size)
    && 1 <= b.m <= PARITY_EXT_MAX
    && |b.parity| == b.m
    && ShardsTrue(b.parity, Encoded(codec, sent, base, b.k, b.m, b.size))
  }

  predicate BlocksTrue(codec: Codec, sent: map<nat, Bytes>, blocks: map<nat, Block>) {
    forall base | base in blocks :: BlockTrue(codec, sent, base, blocks[base])
  }

  predicate Faithful(codec: Codec, sent: map<nat, Bytes>, r: Receiver) {
    CacheTrue(sent, r.recent) && BlocksTrue(codec, sent, r.blocks)
  }

  lemma FaithfulShaped(codec: Codec, sent: map<nat, Bytes>, r: Receiver)
    requires Faithful(codec, sent, r)
    ensures AllShaped(r.blocks)
  {
    forall base | base in r.blocks ensures Shaped(r.blocks[base]) {
      assert BlockTrue(codec, sent, base, r.blocks[base]);
    }
  }

  // ---- rebuilding one block ----

  lemma NeverTooLong(codec: Codec, sent: map<nat, Bytes>, recent: map<nat, Bytes>, base: nat, b: Block)
    requires CacheTrue(sent, recent) && BlockTrue(codec, sent, base, b)
    ensures !TooLong(recent, base, b.k, b.size)
  {
    var payloads := Payloads(sent, base, b.k);
    forall i | 0 <= i < b.k && Number(base, i) in recent
      ensures |recent[Number(base, i)]| <= b.size - PREFIX
    {
      assert payloads[i] == sent[Number(base, i)];
    }
  }

  lemma {:induction false} SlotsPresent(recent: map<nat, Bytes>, base: nat, k: nat, size: nat)
    requires !TooLong(recent, base, k, size)
    ensures Present(Slots(recent, base, k, size)) + |Missing(recent, base, k)| == k
  {
    if k == 0 {
    } else {
      SlotsPresent(recent, base, k - 1, size);
      assert Slots(recent, base, k, size)[..k - 1] == Slots(recent, base, k - 1, size);
    }
  }

  lemma SlotsAgree(codec: Codec, sent: map<nat, Bytes>, recent: map<nat, Bytes>, base: nat, b: Block)
    requires CacheTrue(sent, recent) && BlockTrue(codec, sent, base, b)
    ensures Agrees(codec, DataShards(Payloads(sent, base, b.k), b.size), b.m,
                   Slots(recent, base, b.k, b.size) + b.parity)
  {
    var data := DataShards(Payloads(sent, base, b.k), b.size);
    var slots := Slots(recent, base, b.k, b.size);
    var shards := slots + b.parity;
    forall i | 0 <= i < b.k && shards[i].Some? ensures shards[i].value == data[i] {
      assert shards[i] == Slot(recent, Number(base, i), b.size);
    }
    forall j | 0 <= j < b.m ensures shards[b.k + j] == b.parity[j] {
    }
  }

  lemma Rebuilds(codec: Codec, sent: map<nat, Bytes>, recent: map<nat, Bytes>, base: nat, b: Block)
    requires AnyKSuffice(codec) && CacheTrue(sent, recent) && BlockTrue(codec, sent, base, b)
    requires Present(b.parity) >= |Missing(recent, base, b.k)|
    ensures codec.rebuild(Slots(recent, base, b.k, b.size) + b.parity, b.k)
            == Some(DataShards(Payloads(sent, base, b.k), b.size))
  {
    var data := DataShards(Payloads(sent, base, b.k), b.size);
    var slots := Slots(recent, base, b.k, b.size);
    NeverTooLong(codec, sent, recent, base, b);
    SlotsPresent(recent, base, b.k, b.size);
    PresentConcat(slots, b.parity);
    SlotsAgree(codec, sent, recent, base, b);
    assert Shape(data, b.m, b.size);
  }

  /** The records at the given positions of a block, as sent. */
  function Truth(sent: map<nat, Bytes>, base: nat, positions: seq<nat>): (r: seq<Recovered>)
    requires forall j | 0 <= j < |positions| :: Number(base, positions[j]) in sent
    ensures |r| == |positions|
    ensures forall j | 0 <= j < |r| ::
              r[j] == Recovered(Number(base, positions[j]), sent[Number(base, positions[j])])
  {
    seq(|positions|, j requires 0 <= j < |positions| =>
      Recovered(Number(base, positions[j]), sent[Number(base, positions[j])]))
  }

  lemma {:induction false} ExtractsTruth(sent: map<nat, Bytes>, recent: map<nat, Bytes>, base: nat, k: nat, size: nat,
                                         missing: seq<nat>, out: seq<Recovered>)
    requires CacheTrue(sent, recent) && BlockOf(sent, base, k, size)
    requires forall j | 0 <= j < |missing| :: missing[j] < k
    ensures forall j | 0 <= j < |missing| :: Number(base, missing[j]) in sent
    ensures var e := Extract(recent, base, size, missing, DataShards(Payloads(sent, base, k), size), out);
            && CacheTrue(sent, e.recent) && e.out == Some(out + Truth(sent, base, missing))
            && (forall s | s in recent :: s in e.recent)
            && (forall j | 0 <= j < |missing| :: Number(base, missing[j]) in e.recent)
    decreases |missing|
  {
    if missing == [] {
      assert out + Truth(sent, base, missing) == out;
    } else {
      var number := Number(base, missing[0]);
      assert number in sent;
      var payloads := Payloads(sent, base, k);
      assert payloads[missing[0]] == sent[number];
      ShardRoundTrip(sent[number], size);
      var found := Recovered(number, sent[number]);
      ExtractsTruth(sent, recent[number := sent[number]], base, k, size, missing[1..], out + [found]);
      assert out + [found] + Truth(sent, base, missing[1..]) == out + Truth(sent, base, missing);
    }
  }

  lemma MissingRecorded(sent: map<nat, Bytes>, recent: map<nat, Bytes>, base: nat, k: nat)
    requires Recorded(sent, base, k)
    ensures forall j | 0 <= j < |Missing(recent, base, k)| :: Number(base, Missing(recent, base, k)[j]) in sent
  {
  }

  predicate Enough(recent: map<nat, Bytes>, b: Block) {
    Present(b.parity) >= |Missing(recent, b.base, b.k)|
  }

  /** One attempt gives back every missing record of the block, exactly as sent, if there are enough shards, and
      nothing otherwise; either way what the receiver holds stays true. */
  lemma TriedExactly(codec: Codec, sent: map<nat, Bytes>, r: Receiver, base: nat)
    requires AnyKSuffice(codec) && Faithful(codec, sent, r) && base in r.blocks
    ensures Shaped(r.blocks[base]) && Recorded(sent, base, r.blocks[base].k)
    ensures var missing := Missing(r.recent, base, r.blocks[base].k);
            && (forall j | 0 <= j < |missing| :: Number(base, missing[j]) in sent)
            && Tried(codec, r, base).out == if Enough(r.recent, r.blocks[base]) then Truth(sent, base, missing) else []
    ensures Faithful(codec, sent, Tried(codec, r, base).next)
  {
    var b := r.blocks[base];
    assert BlockTrue(codec, sent, base, b);
    var missing := Missing(r.recent, base, b.k);
    NeverTooLong(codec, sent, r.recent, base, b);
    MissingRecorded(sent, r.recent, base, b.k);
    if Enough(r.recent, b) {
      Rebuilds(codec, sent, r.recent, base, b);
      ExtractsTruth(sent, r.recent, base, b.k, b.size, missing, []);
      assert [] + Truth(sent, base, missing) == Truth(sent, base, missing);
    }
  }

  /** A block is done with exactly when there are enough shards, and then all its records are cached; otherwise the
      attempt changes nothing. */
  lemma TriedSettles(codec: Codec, sent: map<nat, Bytes>, r: Receiver, base: nat, i: nat)
    requires AnyKSuffice(codec) && Faithful(codec, sent, r) && base in r.blocks && Shaped(r.blocks[base])
    requires i < r.blocks[base].k
    ensures var next := Tried(codec, r, base).next;
            if Enough(r.recent, r.blocks[base]) then next.blocks == r.blocks - {base} && Number(base, i) in next.recent
            else next == r
  {
    var b := r.blocks[base];
    assert BlockTrue(codec, sent, base, b);
    NeverTooLong(codec, sent, r.recent, base, b);
    if Enough(r.recent, b) {
      Rebuilds(codec, sent, r.recent, base, b);
      ExtractsAll(sent, r.recent, base, b.k, b.size, i);
    }
  }

  lemma ExtractsAll(sent: map<nat, Bytes>, recent: map<nat, Bytes>, base: nat, k: nat, size: nat, i: nat)
    requires CacheTrue(sent, recent) && BlockOf(sent, base, k, size) && i < k
    ensures var e := Extract(recent, base, size, Missing(recent, base, k), DataShards(Payloads(sent, base, k), size), []);
            e.out.Some? && Number(base, i) in e.recent
  {
    ExtractsTruth(sent, recent, base, k, size, Missing(recent, base, k), []);
    if Number(base, i) !in recent {
      MissingComplete(recent, base, k, i);
    }
  }

  // ---- events ----

  predicate AllTrue(sent: map<nat, Bytes>, out: seq<Recovered>) {
    forall x | x in out :: x.seqNo in sent && x.payload == sent[x.seqNo]
  }

  lemma SortedMembers(out: seq<Recovered>)
    ensures forall x :: x in Sorted(out) <==> x in out
  {
    forall x ensures x in Sorted(out) <==> x in out {
      assert x in multiset(Sorted(out)) <==> x in multiset(out);
    }
  }

  lemma TriedTrue(codec: Codec, sent: map<nat, Bytes>, r: Receiver, base: nat)
    requires AnyKSuffice(codec) && Faithful(codec, sent, r) && base in r.blocks
    ensures Shaped(r.blocks[base])
    ensures AllTrue(sent, Tried(codec, r, base).out) && Faithful(codec, sent, Tried(codec, r, base).next)
  {
    TriedExactly(codec, sent, r, base);
  }

  lemma {:induction false} TriedAllTrue(codec: Codec, sent: map<nat, Bytes>, r: Receiver, seqNo: nat, order: seq<nat>)
    requires AnyKSuffice(codec) && Faithful(codec, sent, r)
    ensures AllShaped(r.blocks)
    ensures var o := TriedAll(codec, r, seqNo, order); AllTrue(sent, o.out) && Faithful(codec, sent, o.next)
  {
    FaithfulShaped(codec, sent, r);
    if order == [] {
    } else {
      var walked, base := order[..|order| - 1], order[|order| - 1];
      TriedAllTrue(codec, sent, r, seqNo, walked);
      var before := TriedAll(codec, r, seqNo, walked);
      if base in before.next.blocks && Touches(before.next.blocks[base], seqNo) {
        TriedTrue(codec, sent, before.next, base);
      }
    }
  }

  lemma KeptTrue(codec: Codec, sent: map<nat, Bytes>, blocks: map<nat, Block>, now: int, kept: map<nat, Block>)
    requires BlocksTrue(codec, sent, blocks) && Keeps(blocks, now, kept)
    ensures BlocksTrue(codec, sent, kept)
  {
    forall base | base in kept ensures BlockTrue(codec, sent, base, kept[base]) {
      assert base in Unexpired(blocks, now);
    }
  }

  lemma TidyFaithful(codec: Codec, sent: map<nat, Bytes>, r: Receiver, seqNo: nat)
    requires Faithful(codec, sent, r) && seqNo in sent
    ensures var tidy := Tidied(Retained(r, seqNo, sent[seqNo]));
            Faithful(codec, sent, tidy) && tidy.blocks == r.blocks && tidy.ext == r.ext
  {
    var kept := Retained(r, seqNo, sent[seqNo]);
    assert CacheTrue(sent, kept.recent);
    assert CacheTrue(sent, Cut(kept));
  }

  /** A genuine data record leaves the receiver true and yields only true records. */
  lemma DataEventTrue(codec: Codec, sent: map<nat, Bytes>, r: Receiver, seqNo: nat, now: int, order: seq<nat>, o: Outcome)
    requires AnyKSuffice(codec) && Faithful(codec, sent, r) && seqNo in sent
    requires AllShaped(r.blocks) && DataEvent(codec, r, seqNo, sent[seqNo], now, order, o)
    ensures Faithful(codec, sent, o.next) && AllTrue(sent, o.out) && o.next.ext == r.ext
  {
    if seqNo != 0 {
      var tidy := Tidied(Retained(r, seqNo, sent[seqNo]));
      TidyFaithful(codec, sent, r, seqNo);
      TriedAllTrue(codec, sent, tidy, seqNo, order);
      var tried := TriedAll(codec, tidy, seqNo, order);
      KeptTrue(codec, sent, tried.next.blocks, now, o.next.blocks);
      SortedMembers(tried.out);
    }
  }

  /** No other block holds the number. */
  predicate OnlyBlock(blocks: map<nat, Block>, seqNo: nat, base: nat) {
    forall b | b in blocks && b != base :: !Touches(blocks[b], seqNo)
  }

  predicate Disjoint(blocks: map<nat, Block>) {
    forall a, b | a in blocks && b in blocks && a != b ::
      blocks[a].base + blocks[a].k <= blocks[b].base || blocks[b].base + blocks[b].k <= blocks[a].base
  }

  lemma DisjointTouchOnce(blocks: map<nat, Block>, seqNo: nat, base: nat)
    requires Disjoint(blocks) && base in blocks && Touches(blocks[base], seqNo)
    requires forall b | b in blocks :: blocks[b].base + blocks[b].k <= MAX_SEQ + 1
    ensures OnlyBlock(blocks, seqNo, base)
  {
  }

  /** Walking the blocks, in any order, tries exactly the one that holds the number. */
  lemma {:induction false} TriesOnlyBlock(codec: Codec, r: Receiver, seqNo: nat, order: seq<nat>, base: nat)
    requires AllShaped(r.blocks) && Distinct(order) && OnlyBlock(r.blocks, seqNo, base)
    ensures TriedAll(codec, r, seqNo, order)
            == if base in order && base in r.blocks && Touches(r.blocks[base], seqNo) then Tried(codec, r, base)
               else Outcome(r, [])
    decreases |order|
  {
    if order == [] {
    } else {
      var walked, last := order[..|order| - 1], order[|order| - 1];
      TriesOnlyBlock(codec, r, seqNo, walked, base);
      assert order == walked + [last];
      assert last !in walked;
      if base in r.blocks {
        TriedShaped(codec, r, base);
      }
    }
  }

  /** What a genuine data record yields while blocks do not overlap, whatever the order of the walk: exactly the
      missing records of the block it belongs to, once its shards suffice. */
  lemma DataRecoversExactly(codec: Codec, sent: map<nat, Bytes>, r: Receiver, seqNo: nat, now: int, order: seq<nat>,
                            o: Outcome, base: nat, x: nat)
    requires AnyKSuffice(codec) && Faithful(codec, sent, r) && seqNo in sent && seqNo != 0
    requires AllShaped(r.blocks) && DataEvent(codec, r, seqNo, sent[seqNo], now, order, o)
    requires base in r.blocks && Touches(r.blocks[base], seqNo) && Disjoint(r.blocks)
    ensures var recent := Tidied(Retained(r, seqNo, sent[seqNo])).recent;
            (exists y :: y in o.out && y.seqNo == x)
            <==> base <= x < base + r.blocks[base].k && x !in recent && Enough(recent, r.blocks[base])
  {
    var tidy := Tidied(Retained(r, seqNo, sent[seqNo]));
    TidyFaithful(codec, sent, r, seqNo);
    InRangeBlocks(codec, sent, r);
    DataTriesItsBlock(codec, r, seqNo, sent[seqNo], now, order, o, base);
    TriedYields(codec, sent, tidy, base, x);
    SortedMembers(Tried(codec, tidy, base).out);
  }

  lemma DataTriesItsBlock(codec: Codec, r: Receiver, seqNo: nat, payload: Bytes, now: int, order: seq<nat>, o: Outcome,
                          base: nat)
    requires AllShaped(r.blocks) && seqNo != 0 && DataEvent(codec, r, seqNo, payload, now, order, o)
    requires base in r.blocks && Touches(r.blocks[base], seqNo) && Disjoint(r.blocks)
    requires forall b | b in r.blocks :: r.blocks[b].base + r.blocks[b].k <= MAX_SEQ + 1
    ensures o.out == Sorted(Tried(codec, Tidied(Retained(r, seqNo, payload)), base).out)
  {
    DisjointTouchOnce(r.blocks, seqNo, base);
    TriesOnlyBlock(codec, Tidied(Retained(r, seqNo, payload)), seqNo, order, base);
  }

  lemma InRangeBlocks(codec: Codec, sent: map<nat, Bytes>, r: Receiver)
    requires Faithful(codec, sent, r)
    ensures forall b | b in r.blocks :: r.blocks[b].base + r.blocks[b].k <= MAX_SEQ + 1
  {
    forall b | b in r.blocks ensures r.blocks[b].base + r.blocks[b].k <= MAX_SEQ + 1 {
      assert BlockTrue(codec, sent, b, r.blocks[b]);
    }
  }

  lemma TriedYields(codec: Codec, sent: map<nat, Bytes>, r: Receiver, base: nat, x: nat)
    requires AnyKSuffice(codec) && Faithful(codec, sent, r) && base in r.blocks && Shaped(r.blocks[base])
    ensures (exists y :: y in Tried(codec, r, base).out && y.seqNo == x)
            <==> base <= x < base + r.blocks[base].k && x !in r.recent && Enough(r.recent, r.blocks[base])
  {
    TriedExactly(codec, sent, r, base);
    if Enough(r.recent, r.blocks[base]) {
      TruthMembers(sent, r.recent, base, r.blocks[base].k, x);
    }
  }

  /** A data record outside every block yields nothing. */
  lemma DataOutsideYieldsNothing(codec: Codec, r: Receiver, seqNo: nat, payload: Bytes, now: int, order: seq<nat>,
                                 o: Outcome)
    requires AllShaped(r.blocks) && DataEvent(codec, r, seqNo, payload, now, order, o)
    requires forall b | b in r.blocks :: !Touches(r.blocks[b], seqNo)
    ensures o.out == []
  {
    if seqNo != 0 {
      TriesOnlyBlock(codec, Tidied(Retained(r, seqNo, payload)), seqNo, order, 0);
    }
  }

  /** While blocks do not overlap, two walks of the same map in different orders yield the same and leave the same
      before stale blocks are dropped. */
  lemma OrderDoesNotMatter(codec: Codec, r: Receiver, seqNo: nat, order: seq<nat>, order': seq<nat>, base: nat)
    requires AllShaped(r.blocks) && OnlyBlock(r.blocks, seqNo, base)
    requires Distinct(order) && Distinct(order') && forall b :: b in order <==> b in order'
    ensures TriedAll(codec, r, seqNo, order) == TriedAll(codec, r, seqNo, order')
  {
    TriesOnlyBlock(codec, r, seqNo, order, base);
    TriesOnlyBlock(codec, r, seqNo, order', base);
  }

  /** Filing a genuine parity shard keeps every block true. */
  lemma WithParityTrue(codec: Codec, sent: map<nat, Bytes>, r: Receiver, p: Parity, now: int)
    requires Encodes(codec) && Faithful(codec, sent, r) && AllShaped(r.blocks) && Genuine(codec, sent, p)
    ensures WithParity(r, p, now).Some? ==> Faithful(codec, sent, WithParity(r, p, now).value)
  {
    var encoded := Encoded(codec, sent, p.base, p.k, p.m, |p.data|);
    assert Shape(DataShards(Payloads(sent, p.base, p.k), |p.data|), p.m, |p.data|);
    assert p.base in r.blocks ==> BlockTrue(codec, sent, p.base, r.blocks[p.base]);
    var next := WithParity(r, p, now);
    if next.Some? {
      assert BlockTrue(codec, sent, p.base, next.value.blocks[p.base]);
    }
  }

  /** A genuine parity frame leaves the receiver true and yields only true records. */
  lemma ParityEventTrue(codec: Codec, sent: map<nat, Bytes>, r: Receiver, frame: Frame, now: int, o: Outcome)
    requires AnyKSuffice(codec) && Faithful(codec, sent, r)
    requires Parsed(frame, r.ext).Some? ==> Genuine(codec, sent, Parsed(frame, r.ext).value)
    requires AllShaped(r.blocks) && ParityEvent(codec, r, frame, now, o)
    ensures Faithful(codec, sent, o.next) && AllTrue(sent, o.out) && o.next.ext == r.ext
  {
    var p := Parsed(frame, r.ext);
    if p.Some? {
      WithParityTrue(codec, sent, r, p.value, now);
      var filed := WithParity(r, p.value, now);
      if filed.Some? {
        TriedTrue(codec, sent, filed.value, p.value.base);
        var tried := Tried(codec, filed.value, p.value.base);
        KeptTrue(codec, sent, tried.next.blocks, now, o.next.blocks);
        SortedMembers(tried.out);
      }
    }
  }

  /** A genuine parity frame that matches what the receiver has yields a record exactly when it belongs to the block, is
      missing, and the parity shards at hand, this one included, are as many as the records missing. */
  lemma ParityRecoversExactly(codec: Codec, sent: map<nat, Bytes>, r: Receiver, frame: Frame, now: int, o: Outcome,
                              seqNo: nat)
    requires AnyKSuffice(codec) && Faithful(codec, sent, r)
    requires Parsed(frame, r.ext).Some? && Genuine(codec, sent, Parsed(frame, r.ext).value)
    requires AllShaped(r.blocks) && ParityEvent(codec, r, frame, now, o)
    requires Matches(r, Parsed(frame, r.ext).value)
    ensures var p := Parsed(frame, r.ext).value;
            (exists x :: x in o.out && x.seqNo == seqNo)
            <==> && p.base <= seqNo < p.base + p.k
                 && seqNo !in r.recent
                 && HeldWith(r, p) >= |Missing(r.recent, p.base, p.k)|
  {
    var p := Parsed(frame, r.ext).value;
    FiledExactly(r, p, now);
    HeldAfterFiling(r, p, now);
    var filed := WithParity(r, p, now).value;
    WithParityTrue(codec, sent, r, p, now);
    TriedExactly(codec, sent, filed, p.base);
    var tried := Tried(codec, filed, p.base).out;
    SortedMembers(tried);
    if Enough(r.recent, filed.blocks[p.base]) {
      TruthMembers(sent, r.recent, p.base, p.k, seqNo);
      assert o.out == Sorted(tried);
    }
  }

  lemma MissingIsTrue(sent: map<nat, Bytes>, recent: map<nat, Bytes>, base: nat, k: nat, i: nat)
    requires Recorded(sent, base, k) && i < k && Number(base, i) !in recent
    requires forall j | 0 <= j < |Missing(recent, base, k)| :: Number(base, Missing(recent, base, k)[j]) in sent
    ensures Recovered(Number(base, i), sent[Number(base, i)]) in Truth(sent, base, Missing(recent, base, k))
  {
    var missing := Missing(recent, base, k);
    MissingComplete(recent, base, k, i);
    var j :| 0 <= j < |missing| && missing[j] == i;
    assert Truth(sent, base, missing)[j] == Recovered(Number(base, i), sent[Number(base, i)]);
  }

  lemma TrueIsMissing(sent: map<nat, Bytes>, recent: map<nat, Bytes>, base: nat, k: nat, x: Recovered)
    requires Recorded(sent, base, k)
    requires forall j | 0 <= j < |Missing(recent, base, k)| :: Number(base, Missing(recent, base, k)[j]) in sent
    requires x in Truth(sent, base, Missing(recent, base, k))
    ensures base <= x.seqNo < base + k && x.seqNo !in recent
  {
    var missing, truth := Missing(recent, base, k), Truth(sent, base, Missing(recent, base, k));
    var j :| 0 <= j < |truth| && truth[j] == x;
    assert missing[j] < k && Number(base, missing[j]) !in recent;
  }

  lemma TruthMembers(sent: map<nat, Bytes>, recent: map<nat, Bytes>, base: nat, k: nat, seqNo: nat)
    requires Recorded(sent, base, k)
    requires forall j | 0 <= j < |Missing(recent, base, k)| :: Number(base, Missing(recent, base, k)[j]) in sent
    ensures (exists x :: x in Truth(sent, base, Missing(recent, base, k)) && x.seqNo == seqNo)
            <==> base <= seqNo < base + k && seqNo !in recent
  {
    var truth := Truth(sent, base, Missing(recent, base, k));
    if base <= seqNo < base + k && seqNo !in recent {
      MissingIsTrue(sent, recent, base, k, seqNo - base);
    }
    forall x | x in truth ensures base <= x.seqNo < base + k && x.seqNo !in recent {
      TrueIsMissing(sent, recent, base, k, x);
    }
  }

  /** One that does not match, or does not parse, changes nothing and yields nothing. */
  lemma MismatchIsIgnored(codec: Codec, r: Receiver, frame: Frame, now: int, o: Outcome)
    requires AllShaped(r.blocks) && ParityEvent(codec, r, frame, now, o)
    requires Parsed(frame, r.ext).None? || !Matches(r, Parsed(frame, r.ext).value)
    ensures o == Outcome(r, [])
  {
    if Parsed(frame, r.ext).Some? {
      FiledExactly(r, Parsed(frame, r.ext).value, now);
    }
  }

  // ---- parity shards add up ----

  /** A parity frame of the block at hand, the receiver it meets and what comes of it. */
  datatype Arrival = Arrival(before: Receiver, frame: Frame, now: int, o: Outcome)

  ghost predicate Arrives(codec: Codec, sent: map<nat, Bytes>, a: Arrival, base: nat, k: nat, m: nat) {
    && Faithful(codec, sent, a.before) && AllShaped(a.before.blocks)
    && ParityEvent(codec, a.before, a.frame, a.now, a.o)
    && Parsed(a.frame, a.before.ext).Some?
    && var p := Parsed(a.frame, a.before.ext).value;
       Genuine(codec, sent, p) && p.base == base && p.k == k && p.m == m
  }

  function IndexOf(a: Arrival): int {
    var p := Parsed(a.frame, a.before.ext);
    if p.Some? then p.value.index else -1
  }

  /** Between two arrivals anything may happen that leaves this block's records and its entry alone. */
  predicate Undisturbed(a: Arrival, b: Arrival, base: nat, k: nat) {
    && (forall i | 0 <= i < k :: Number(base, i) in b.before.recent <==> Number(base, i) in a.o.next.recent)
    && base in a.o.next.blocks && base in b.before.blocks
    && SameShards(b.before.blocks[base], a.o.next.blocks[base])
  }

  predicate SameShards(b: Block, c: Block) { b.k == c.k && b.m == c.m && b.parity == c.parity }

  lemma {:induction false} SameMissing(u: map<nat, Bytes>, v: map<nat, Bytes>, base: nat, k: nat)
    requires forall i | 0 <= i < k :: Number(base, i) in u <==> Number(base, i) in v
    ensures Missing(u, base, k) == Missing(v, base, k)
  {
    if k == 0 {
    } else {
      SameMissing(u, v, base, k - 1);
    }
  }

  /** Distinct parity frames of one block, in any order, none yet received; `count` of them come before the block can be
      rebuilt, and it is neither disturbed nor dropped meanwhile. */
  ghost predicate Gathering(codec: Codec, sent: map<nat, Bytes>, arrivals: seq<Arrival>, base: nat, k: nat, m: nat,
                            count: nat) {
    && count <= |arrivals|
    && (forall i | 0 <= i < count :: Arrives(codec, sent, arrivals[i], base, k, m))
    && (forall i, j | 0 <= i < j < count :: IndexOf(arrivals[i]) != IndexOf(arrivals[j]))
    && (count > 0 ==> base !in arrivals[0].before.blocks)
    && (forall i | 0 < i < count :: Undisturbed(arrivals[i - 1], arrivals[i], base, k))
  }

  /** The block holds exactly `held` parity shards, each with one of the given indices. */
  predicate Holding(blocks: map<nat, Block>, base: nat, k: nat, m: nat, held: nat, indices: set<int>) {
    if held == 0 then base !in blocks
    else
      && base in blocks && blocks[base].k == k && blocks[base].m == m == |blocks[base].parity|
      && Present(blocks[base].parity) == held
      && forall x | 0 <= x < m && blocks[base].parity[x].Some? :: x in indices
  }

  /** A genuine frame of the block always matches an entry that is true. */
  lemma GenuineMatches(codec: Codec, sent: map<nat, Bytes>, r: Receiver, p: Parity)
    requires Faithful(codec, sent, r) && Genuine(codec, sent, p)
    requires p.base in r.blocks ==> r.blocks[p.base].k == p.k && r.blocks[p.base].m == p.m
    ensures Matches(r, p)
  {
    if p.base in r.blocks {
      assert BlockTrue(codec, sent, p.base, r.blocks[p.base]);
    }
  }

  /** A further shard, while there are still too few: it is kept, and nothing is yielded. */
  lemma TooFewKept(codec: Codec, sent: map<nat, Bytes>, a: Arrival, base: nat, k: nat, m: nat, held: nat,
                   indices: set<int>)
    requires Encodes(codec)
    requires Arrives(codec, sent, a, base, k, m) && Holding(a.before.blocks, base, k, m, held, indices)
    requires IndexOf(a) !in indices && held + 1 < |Missing(a.before.recent, base, k)|
    ensures a.o.out == [] && a.o.next.recent == a.before.recent
    ensures base in a.o.next.blocks ==> Holding(a.o.next.blocks, base, k, m, held + 1, indices + {IndexOf(a)})
  {
    var p := Parsed(a.frame, a.before.ext).value;
    GenuineMatches(codec, sent, a.before, p);
    FiledExactly(a.before, p, a.now);
    var filed := WithParity(a.before, p, a.now).value;
    FiledHolding(a.before, p, a.now, k, m, held, indices);
    TooFewTried(codec, sent, a.before, p, a.now);
    NothingTried(codec, a.before, a.frame, a.now, a.o, base);
    if base in a.o.next.blocks {
      assert Holding(filed.blocks, base, k, m, held + 1, indices + {p.index});
    }
  }

  lemma FiledHolding(r: Receiver, p: Parity, now: int, k: nat, m: nat, held: nat, indices: set<int>)
    requires 0 <= p.index < p.m && p.k >= 1 && AllShaped(r.blocks) && Matches(r, p) && p.k == k && p.m == m
    requires Holding(r.blocks, p.base, k, m, held, indices) && p.index !in indices
    ensures WithParity(r, p, now).Some?
    ensures Holding(WithParity(r, p, now).value.blocks, p.base, k, m, held + 1, indices + {p.index})
  {
    FiledExactly(r, p, now);
    HeldAfterFiling(r, p, now);
    HeldGrows(r, p, k, m, held, indices);
  }

  lemma TooFewTried(codec: Codec, sent: map<nat, Bytes>, r: Receiver, p: Parity, now: int)
    requires Encodes(codec) && Faithful(codec, sent, r) && AllShaped(r.blocks) && Genuine(codec, sent, p)
    requires WithParity(r, p, now).Some?
    requires var filed := WithParity(r, p, now).value;
             Present(filed.blocks[p.base].parity) < |Missing(filed.recent, p.base, p.k)|
    ensures var filed := WithParity(r, p, now).value;
            Shaped(filed.blocks[p.base]) && Tried(codec, filed, p.base) == Outcome(filed, [])
  {
    var filed := WithParity(r, p, now).value;
    WithParityTrue(codec, sent, r, p, now);
    assert BlockTrue(codec, sent, p.base, filed.blocks[p.base]);
    NeverTooLong(codec, sent, filed.recent, p.base, filed.blocks[p.base]);
  }

  lemma NothingTried(codec: Codec, r: Receiver, frame: Frame, now: int, o: Outcome, base: nat)
    requires AllShaped(r.blocks) && ParityEvent(codec, r, frame, now, o) && Parsed(frame, r.ext).Some?
    requires var p := Parsed(frame, r.ext).value;
             && p.base == base && WithParity(r, p, now).Some?
             && var filed := WithParity(r, p, now).value;
                Shaped(filed.blocks[base]) && Tried(codec, filed, base) == Outcome(filed, [])
    ensures var filed := WithParity(r, Parsed(frame, r.ext).value, now).value;
            && o.out == [] && o.next.recent == filed.recent
            && (base in o.next.blocks ==> o.next.blocks[base] == filed.blocks[base])
  {
  }

  lemma HeldGrows(r: Receiver, p: Parity, k: nat, m: nat, held: nat, indices: set<int>)
    requires 0 <= p.index < p.m && AllShaped(r.blocks) && Matches(r, p) && p.m == m
    requires Holding(r.blocks, p.base, k, m, held, indices) && p.index !in indices
    ensures HeldWith(r, p) == held + 1
  {
  }

  function Indices(arrivals: seq<Arrival>): set<int> { set i | 0 <= i < |arrivals| :: IndexOf(arrivals[i]) }

  /** While i shards are too few, exactly those are held, and the same records are missing as at first. */
  lemma {:induction false} Gathers(codec: Codec, sent: map<nat, Bytes>, arrivals: seq<Arrival>, base: nat, k: nat,
                                   m: nat, count: nat, i: nat)
    requires Encodes(codec) && Gathering(codec, sent, arrivals, base, k, m, count) && i < count
    requires count <= |Missing(arrivals[0].before.recent, base, k)|
    ensures Missing(arrivals[i].before.recent, base, k) == Missing(arrivals[0].before.recent, base, k)
    ensures Holding(arrivals[i].before.blocks, base, k, m, i, Indices(arrivals[..i]))
    decreases i
  {
    if i == 0 {
      assert arrivals[..0] == [];
    } else {
      var a := arrivals[i - 1];
      Gathers(codec, sent, arrivals, base, k, m, count, i - 1);
      NewIndex(arrivals, i - 1, count);
      TooFewKept(codec, sent, a, base, k, m, i - 1, Indices(arrivals[..i - 1]));
      SameMissing(arrivals[i].before.recent, a.before.recent, base, k);
      IndicesSnoc(arrivals, i);
    }
  }

  lemma NewIndex(arrivals: seq<Arrival>, i: nat, count: nat)
    requires i < count <= |arrivals|
    requires forall i, j | 0 <= i < j < count :: IndexOf(arrivals[i]) != IndexOf(arrivals[j])
    ensures IndexOf(arrivals[i]) !in Indices(arrivals[..i])
  {
  }

  lemma IndicesSnoc(arrivals: seq<Arrival>, i: nat)
    requires 0 < i <= |arrivals|
    ensures Indices(arrivals[..i]) == Indices(arrivals[..i - 1]) + {IndexOf(arrivals[i - 1])}
  {
    var all, before := arrivals[..i], arrivals[..i - 1];
    forall x | x in Indices(before) ensures x in Indices(all) {
      var j :| 0 <= j < |before| && IndexOf(before[j]) == x;
      assert IndexOf(all[j]) == x;
    }
    assert IndexOf(all[i - 1]) in Indices(all);
    forall x | x in Indices(all) && x != IndexOf(arrivals[i - 1]) ensures x in Indices(before) {
      var j :| 0 <= j < |all| && IndexOf(all[j]) == x;
      assert IndexOf(before[j]) == x;
    }
  }

  /** As many distinct parity frames of a block as it has records missing, in any order: all but the last yield nothing,
      and the last yields exactly the missing records. */
  lemma EnoughParityRebuilds(codec: Codec, sent: map<nat, Bytes>, arrivals: seq<Arrival>, base: nat, k: nat, m: nat,
                             i: nat, x: nat)
    requires AnyKSuffice(codec) && arrivals != []
    requires Gathering(codec, sent, arrivals, base, k, m, |Missing(arrivals[0].before.recent, base, k)|)
    requires i < |Missing(arrivals[0].before.recent, base, k)|
    ensures (exists y :: y in arrivals[i].o.out && y.seqNo == x)
            <==> && i == |Missing(arrivals[0].before.recent, base, k)| - 1
                 && base <= x < base + k && x !in arrivals[i].before.recent
    ensures Missing(arrivals[i].before.recent, base, k) == Missing(arrivals[0].before.recent, base, k)
  {
    var count := |Missing(arrivals[0].before.recent, base, k)|;
    var a := arrivals[i];
    Gathers(codec, sent, arrivals, base, k, m, count, i);
    NewIndex(arrivals, i, count);
    var p := Parsed(a.frame, a.before.ext).value;
    GenuineMatches(codec, sent, a.before, p);
    HeldGrows(a.before, p, k, m, i, Indices(arrivals[..i]));
    ParityRecoversExactly(codec, sent, a.before, a.frame, a.now, a.o, x);
  }

  // ---- sender, network and receiver together ----

  /** `sent` is fixed for a run: every record ever handed over, under its number. `detached` are blocks on their way to
      the encoder, `frames` the parity frames put on the network, `recovered` all that the receiver rebuilt. */
  datatype Sys = Sys(sender: S.Sender, detached: set<seq<S.Source>>, frames: set<Frame>, receiver: Receiver,
                     recovered: seq<Recovered>)

  datatype Action =
    | Add(seqNo: nat, clean: bool)
    | Flush(gen: nat)
    | Emit(block: seq<S.Source>, wanted: nat, header: Frame)
    | CloseSender
    | DataArrives(seqNo: nat, now: int, order: seq<nat>)
    | ParityArrives(frame: Frame, now: int)

  predicate Init(s: Sys) {
    exists ext :: s == Sys(S.Sender([], 0, false, 0, ext), {}, {}, Receiver(map[], 0, 0, map[], ext), [])
  }

  function FramesOf(parity: seq<Parity>, header: Frame): set<Frame> {
    set i | 0 <= i < |parity| && Applied(parity[i], header).Some? :: Applied(parity[i], header).value
  }

  /** One step. Frames and records may arrive in any order, any number of times, or never. */
  ghost predicate Next(codec: Codec, sent: map<nat, Bytes>, s: Sys, a: Action, t: Sys) {
    match a
    case Add(seqNo, clean) =>
      && seqNo in sent && seqNo <= MAX_SEQ
      && var step := S.Added(s.sender, seqNo, sent[seqNo], clean);
         t == s.(sender := step.next, detached := s.detached + Blocks(step.detached))
    case Flush(gen) =>
      var step := S.Flushed(s.sender, gen);
      t == s.(sender := step.next, detached := s.detached + Blocks(step.detached))
    case Emit(block, wanted, header) =>
      && block in s.detached && |block| <= DATA_MAX && header.cmd == CMD_FEC
      && var e := S.Emitted(codec, s.sender, block, wanted);
         t == s.(sender := e.next, frames := s.frames + FramesOf(e.parity, header))
    case CloseSender => t == s.(sender := s.sender.(closed := true, pending := []))
    case DataArrives(seqNo, now, order) =>
      && seqNo in sent && AllShaped(s.receiver.blocks)
      && exists o :: DataEvent(codec, s.receiver, seqNo, sent[seqNo], now, order, o)
                     && t == s.(receiver := o.next, recovered := s.recovered + o.out)
    case ParityArrives(frame, now) =>
      && frame in s.frames && AllShaped(s.receiver.blocks)
      && exists o :: ParityEvent(codec, s.receiver, frame, now, o)
                     && t == s.(receiver := o.next, recovered := s.recovered + o.out)
  }

  function Blocks(detached: seq<seq<S.Source>>): set<seq<S.Source>> { set b | b in detached }

  predicate FrameTrue(codec: Codec, sent: map<nat, Bytes>, ext: bool, frame: Frame) {
    Parsed(frame, ext).Some? && Genuine(codec, sent, Parsed(frame, ext).value)
  }

  predicate DetachedTrue(sent: map<nat, Bytes>, detached: set<seq<S.Source>>) {
    forall b | b in detached :: 1 <= |b| <= DATA_MAX && S.BlockFrom(sent, b)
  }

  predicate FramesTrue(codec: Codec, sent: map<nat, Bytes>, ext: bool, frames: set<Frame>) {
    forall f | f in frames :: FrameTrue(codec, sent, ext, f)
  }

  predicate Inv(codec: Codec, sent: map<nat, Bytes>, s: Sys) {
    && s.sender.ext == s.receiver.ext
    && S.SenderInv(sent, s.sender)
    && DetachedTrue(sent, s.detached)
    && FramesTrue(codec, sent, s.receiver.ext, s.frames)
    && Faithful(codec, sent, s.receiver)
    && AllTrue(sent, s.recovered)
  }

  lemma EmitKeeps(codec: Codec, sent: map<nat, Bytes>, s: S.Sender, block: seq<S.Source>, wanted: nat, header: Frame)
    requires Encodes(codec) && 1 <= |block| <= DATA_MAX && S.BlockFrom(sent, block) && header.cmd == CMD_FEC
    ensures FramesTrue(codec, sent, s.ext, FramesOf(S.Emitted(codec, s, block, wanted).parity, header))
  {
    var parity := S.Emitted(codec, s, block, wanted).parity;
    forall f | f in FramesOf(parity, header) ensures FrameTrue(codec, sent, s.ext, f) {
      var i :| 0 <= i < |parity| && Applied(parity[i], header).Some? && f == Applied(parity[i], header).value;
      S.EmittedGenuine(codec, sent, s, block, wanted, i);
      MetadataRoundTrip(parity[i], header);
      assert Genuine(codec, sent, parity[i].(ext := false));
    }
  }

  lemma DataStepKeeps(codec: Codec, sent: map<nat, Bytes>, s: Sys, a: Action, t: Sys)
    requires AnyKSuffice(codec) && Inv(codec, sent, s) && Next(codec, sent, s, a, t) && a.DataArrives?
    ensures Inv(codec, sent, t)
  {
    var o :| DataEvent(codec, s.receiver, a.seqNo, sent[a.seqNo], a.now, a.order, o)
             && t == s.(receiver := o.next, recovered := s.recovered + o.out);
    DataEventTrue(codec, sent, s.receiver, a.seqNo, a.now, a.order, o);
  }

  lemma ParityStepKeeps(codec: Codec, sent: map<nat, Bytes>, s: Sys, a: Action, t: Sys)
    requires AnyKSuffice(codec) && Inv(codec, sent, s) && Next(codec, sent, s, a, t) && a.ParityArrives?
    ensures Inv(codec, sent, t)
  {
    var o :| ParityEvent(codec, s.receiver, a.frame, a.now, o)
             && t == s.(receiver := o.next, recovered := s.recovered + o.out);
    assert FrameTrue(codec, sent, s.receiver.ext, a.frame);
    ParityEventTrue(codec, sent, s.receiver, a.frame, a.now, o);
  }

  lemma SenderStepKeeps(codec: Codec, sent: map<nat, Bytes>, s: Sys, a: Action, t: Sys)
    requires AnyKSuffice(codec) && Inv(codec, sent, s) && Next(codec, sent, s, a, t)
    requires !a.DataArrives? && !a.ParityArrives?
    ensures Inv(codec, sent, t)
  {
    if a.Add? {
      S.AddedKeeps(sent, s.sender, a.seqNo, sent[a.seqNo], a.clean);
    } else if a.Emit? {
      EmitKeeps(codec, sent, s.sender, a.block, a.wanted, a.header);
    }
  }

  /** A run: states with the action that leads to each. */
  ghost predicate IsRun(codec: Codec, sent: map<nat, Bytes>, states: seq<Sys>, actions: seq<Action>) {
    && |states| == |actions| + 1
    && Init(states[0])
    && forall i | 0 <= i < |actions| :: StepAt(codec, sent, states, actions, i)
  }

  ghost predicate StepAt(codec: Codec, sent: map<nat, Bytes>, states: seq<Sys>, actions: seq<Action>, i: nat)
    requires i < |actions| && |states| == |actions| + 1
  {
    Next(codec, sent, states[i], actions[i], states[i + 1])
  }

  lemma {:induction false} RunInv(codec: Codec, sent: map<nat, Bytes>, states: seq<Sys>, actions: seq<Action>, i: nat)
    requires AnyKSuffice(codec) && IsRun(codec, sent, states, actions) && i < |states|
    ensures Inv(codec, sent, states[i])
  {
    if i == 0 {
    } else {
      RunInv(codec, sent, states, actions, i - 1);
      assert StepAt(codec, sent, states, actions, i - 1);
      var s, a, t := states[i - 1], actions[i - 1], states[i];
      if a.DataArrives? {
        DataStepKeeps(codec, sent, s, a, t);
      } else if a.ParityArrives? {
        ParityStepKeeps(codec, sent, s, a, t);
      } else {
        SenderStepKeeps(codec, sent, s, a, t);
      }
    }
  }

  /** In every run, whatever is lost, duplicated or reordered, every record the receiver rebuilds is the one that was
      sent under that number. */
  lemma RecoveredIsSent(codec: Codec, sent: map<nat, Bytes>, states: seq<Sys>, actions: seq<Action>, i: nat,
                        x: Recovered)
    requires AnyKSuffice(codec) && IsRun(codec, sent, states, actions) && i < |states|
    requires x in states[i].recovered
    ensures x.seqNo in sent && x.payload == sent[x.seqNo]
  {
    RunInv(codec, sent, states, actions, i);
  }
}
