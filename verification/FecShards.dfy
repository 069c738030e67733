/** Reed-Solomon shards (tunnel/fec.go): how payloads become equal-sized data shards, and what is taken for granted
    of the codec. */
module FecShards {

  import opened Common
  import opened FecFrame

  // ---- the codec, as a hypothesis ----

  /** `encode` gives m parity shards for the data shards; `rebuild` gives all data shards back from what is there. */
  datatype Codec = Codec(encode: (seq<Bytes>, nat) -> seq<Bytes>,
                         rebuild: (seq<Option<Bytes>>, nat) -> Option<seq<Bytes>>)

  predicate EqualSized(data: seq<Bytes>, size: nat) {
    forall i | 0 <= i < |data| :: |data[i]| == size
  }

  /** A block shape this protocol uses: one to eight data shards of one size, one to eight parity shards. */
  predicate Shape(data: seq<Bytes>, m: nat, size: nat) {
    1 <= |data| <= DATA_MAX && 1 <= m <= PARITY_EXT_MAX && size >= 1 && EqualSized(data, size)
  }

  /** How many slots hold a shard. */
  function Present(shards: seq<Option<Bytes>>): (n: nat)
    ensures n <= |shards|
  {
    if shards == [] then 0
    else Present(shards[..|shards| - 1]) + if shards[|shards| - 1].Some? then 1 else 0
  }

  /** Every shard that is there is the one the encoder made. */
  predicate Agrees(codec: Codec, data: seq<Bytes>, m: nat, shards: seq<Option<Bytes>>) {
    && |shards| == |data| + m
    && (forall i | 0 <= i < |data| && shards[i].Some? :: shards[i].value == data[i])
    && |codec.encode(data, m)| == m
    && (forall j | 0 <= j < m && shards[|data| + j].Some? :: shards[|data| + j].value == codec.encode(data, m)[j])
  }

  /** Encoding keeps the shard size and gives m shards. */
  ghost predicate Encodes(codec: Codec) {
    forall data: seq<Bytes>, m: nat, size: nat | Shape(data, m, size) ::
      |codec.encode(data, m)| == m && EqualSized(codec.encode(data, m), size)
  }

  /** Any k of the k + m shards determine the data. */
  ghost predicate AnyKSuffice(codec: Codec) {
    && Encodes(codec)
    && forall data: seq<Bytes>, m: nat, size: nat, shards: seq<Option<Bytes>>
         | Shape(data, m, size) && Agrees(codec, data, m, shards) && Present(shards) >= |data| ::
         codec.rebuild(shards, |data|) == Some(data)
  }

  lemma {:induction false} PresentConcat(a: seq<Option<Bytes>>, b: seq<Option<Bytes>>)
    ensures Present(a + b) == Present(a) + Present(b)
  {
    if b == [] {
      assert a + b == a;
    } else {
      PresentConcat(a, b[..|b| - 1]);
      assert (a + b)[..|a + b| - 1] == a + b[..|b| - 1];
    }
  }

  // ---- data shards ----

  function Zeros(n: nat): (z: Bytes)
    ensures |z| == n
  {
    seq(n, _ => 0)
  }

  /** Length, payload, and zeros up to the size of the block's longest payload. */
  function DataShard(payload: Bytes, size: nat): (shard: Bytes)
    requires PREFIX + |payload| <= size
    ensures |shard| == size
  {
    Uint16Bytes(|payload| % 65536) + payload + Zeros(size - PREFIX - |payload|)
  }

  /** The payload a data shard holds, unless its length field is out of bounds. */
  function PayloadOf(shard: Bytes): Option<Bytes>
    requires |shard| >= PREFIX
  {
    var n := BytesUint16(shard);
    if n > |shard| - PREFIX then None else Some(shard[PREFIX..PREFIX + n])
  }

  lemma ShardRoundTrip(payload: Bytes, size: nat)
    requires PREFIX + |payload| <= size <= MAX_DATA
    ensures PayloadOf(DataShard(payload, size)) == Some(payload)
  {
    var shard := DataShard(payload, size);
    assert shard[..PREFIX] == Uint16Bytes(|payload|);
    assert BytesUint16(shard) == |payload|;
  }

  method FillShard(payload: Bytes, size: nat) returns (shard: Bytes)
    requires PREFIX + |payload| <= size
    ensures shard == DataShard(payload, size)
  {
    var slab := new Byte[size](_ => 0);
    var length := |payload| % 65536;
    slab[0], slab[1] := length / 256, length % 256;
    var i := 0;
    while i < |payload|
      invariant 0 <= i <= |payload|
      invariant slab[0] == length / 256 && slab[1] == length % 256
      invariant forall j | 0 <= j < i :: slab[PREFIX + j] == payload[j]
      invariant forall j | PREFIX + i <= j < size :: slab[j] == 0
    {
      slab[PREFIX + i] := payload[i];
      i := i + 1;
    }
    shard := slab[..];
    assert shard == DataShard(payload, size);
  }

  // ---- a block's payloads ----

  function Longest(payloads: seq<Bytes>): (n: nat)
    ensures forall i | 0 <= i < |payloads| :: |payloads[i]| <= n
  {
    if payloads == [] then 0
    else Max(Longest(payloads[..|payloads| - 1]), |payloads[|payloads| - 1]|)
  }

  function ShardSize(payloads: seq<Bytes>): nat { PREFIX + Longest(payloads) }

  function DataShards(payloads: seq<Bytes>, size: nat): (data: seq<Bytes>)
    requires forall i | 0 <= i < |payloads| :: PREFIX + |payloads[i]| <= size
    ensures |data| == |payloads| && EqualSized(data, size)
    ensures forall i | 0 <= i < |payloads| :: data[i] == DataShard(payloads[i], size)
  {
    seq(|payloads|, i requires 0 <= i < |payloads| => DataShard(payloads[i], size))
  }

  /** The payloads recorded for k sequence numbers from base on. */
  predicate Recorded(sent: map<nat, Bytes>, base: nat, k: nat) {
    forall i | 0 <= i < k :: Number(base, i) in sent
  }

  function Number(base: nat, i: nat): nat { base + i }

  function Payloads(sent: map<nat, Bytes>, base: nat, k: nat): (payloads: seq<Bytes>)
    requires Recorded(sent, base, k)
    ensures |payloads| == k
    ensures forall i | 0 <= i < k :: payloads[i] == sent[Number(base, i)]
  {
    seq(k, i requires 0 <= i < k => sent[Number(base, i)])
  }

  /** A block of recorded payloads that fits the wire. */
  predicate BlockOf(sent: map<nat, Bytes>, base: nat, k: nat, size: nat) {
    && 1 <= k <= DATA_MAX
    && base >= 1 && base + k - 1 <= MAX_SEQ
    && Recorded(sent, base, k)
    && size == ShardSize(Payloads(sent, base, k)) <= MAX_DATA
  }

  function Encoded(codec: Codec, sent: map<nat, Bytes>, base: nat, k: nat, m: nat, size: nat): seq<Bytes>
    requires BlockOf(sent, base, k, size)
  {
    codec.encode(DataShards(Payloads(sent, base, k), size), m)
  }

  /** A parity shard the sender could have made from what it recorded. */
  predicate Genuine(codec: Codec, sent: map<nat, Bytes>, p: Parity) {
    && p.k >= 0 && BlockOf(sent, p.base, p.k, |p.data|)
    && 1 <= p.m <= PARITY_EXT_MAX
    && 0 <= p.index < p.m
    && p.index < |Encoded(codec, sent, p.base, p.k, p.m, |p.data|)|
    && p.data == Encoded(codec, sent, p.base, p.k, p.m, |p.data|)[p.index]
  }
}
