/** The buffered in-memory connection (tunnel/chunkpipe.go): a bounded queue of chunks per direction with
    partial reads, and wake-ups over channels that hold one token. */
module ChunkPipe {

  import opened Common

  const BUFFER: nat := 256 * 1024
  const CHUNK: nat := 64 * 1024

  // ---- one queue ----

  datatype Queue = Queue(chunks: seq<Bytes>, bytes: int)

  /** The byte count is the queued total, no chunk is empty, and the queue exceeds its budget by less than
      one chunk. */
  predicate Sound(q: Queue) {
    && q.bytes == |Flatten(q.chunks)|
    && (forall i | 0 <= i < |q.chunks| :: q.chunks[i] != [])
    && q.bytes < BUFFER + CHUNK
  }

  /** push: queues at most one chunk's worth of b. */
  function Pushed(q: Queue, b: Bytes): Queue {
    var piece := Min(CHUNK, |b|);
    Queue(q.chunks + [b[..piece]], q.bytes + piece)
  }

  /** take: removes the first k queued bytes, splitting the chunk they end in. */
  function Taken(chunks: seq<Bytes>, k: nat): seq<Bytes>
    decreases |chunks|
  {
    if chunks == [] || k == 0 then chunks
    else if k < |chunks[0]| then [chunks[0][k..]] + chunks[1..]
    else Taken(chunks[1..], k - |chunks[0]|)
  }

  lemma PushedSound(q: Queue, b: Bytes)
    requires Sound(q) && q.bytes < BUFFER && b != []
    ensures Sound(Pushed(q, b))
    ensures Flatten(Pushed(q, b).chunks) == Flatten(q.chunks) + b[..Min(CHUNK, |b|)]
  {
    FlattenSnoc(q.chunks, b[..Min(CHUNK, |b|)]);
  }

  lemma {:induction false} TakenBytes(chunks: seq<Bytes>, k: nat)
    requires k <= |Flatten(chunks)|
    ensures Flatten(Taken(chunks, k)) == Flatten(chunks)[k..]
    ensures (forall i | 0 <= i < |chunks| :: chunks[i] != []) ==>
              forall i | 0 <= i < |Taken(chunks, k)| :: Taken(chunks, k)[i] != []
    decreases |chunks|
  {
    if chunks == [] || k == 0 {
    } else if k < |chunks[0]| {
      var cut := [chunks[0][k..]] + chunks[1..];
      assert cut[0] == chunks[0][k..] && cut[1..] == chunks[1..];
    } else {
      TakenBytes(chunks[1..], k - |chunks[0]|);
    }
  }

  class ChunkDir {
    var chunks: seq<Bytes>
    var bytes: int

    function State(): Queue
      reads this
    {
      Queue(chunks, bytes)
    }

    constructor ()
      ensures State() == Queue([], 0) && Sound(State())
    {
      chunks, bytes := [], 0;
    }

    method Push(b: Bytes) returns (piece: nat)
      requires Sound(State()) && bytes < BUFFER && b != []
      modifies this
      ensures piece == Min(CHUNK, |b|)
      ensures State() == Pushed(old(State()), b)
      ensures Sound(State())
      ensures Flatten(chunks) == old(Flatten(chunks)) + b[..piece]
    {
      PushedSound(State(), b);
      piece := CHUNK;
      if |b| < piece { piece := |b|; }
      chunks := chunks + [b[..piece]];
      bytes := bytes + piece;
    }

    /** Drains queued bytes into the reader's buffer, following the bytes consumed and not the chunk
        boundaries in its accounting. */
    method Take(b: array<Byte>) returns (n: nat)
      requires Sound(State())
      modifies this, b
      ensures n == Min(b.Length, |old(Flatten(chunks))|)
      ensures b[..n] == old(Flatten(chunks))[..n]
      ensures forall i | n <= i < b.Length :: b[i] == old(b[i])
      ensures Flatten(chunks) == old(Flatten(chunks))[n..]
      ensures Sound(State())
    {
      ghost var all := Flatten(chunks);
      n := 0;
      while n < b.Length && |chunks| > 0
        invariant n <= b.Length && n <= |all|
        invariant b[..n] == all[..n]
        invariant forall i | n <= i < b.Length :: b[i] == old(b[i])
        invariant Flatten(chunks) == all[n..]
        invariant bytes == |all| - n
        invariant forall i | 0 <= i < |chunks| :: chunks[i] != []
        decreases b.Length - n
      {
        var copied := CopyInto(b, n, chunks[0]);
        ghost var head, rest := chunks[0], chunks[1..];
        assert all[n..] == head + Flatten(rest);
        assert all[..n + copied] == all[..n] + head[..copied];
        n := n + copied;
        bytes := bytes - copied;
        if copied < |chunks[0]| {
          TakenBytes(chunks, copied);
          chunks := [chunks[0][copied..]] + chunks[1..];
          break;
        }
        chunks := chunks[1..];
      }
      if n < b.Length && chunks == [] {
        assert n == |all|;
      }
    }
  }

  /** Go's copy into b from position n on. */
  method CopyInto(b: array<Byte>, n: nat, src: Bytes) returns (copied: nat)
    requires n <= b.Length
    modifies b
    ensures copied == Min(b.Length - n, |src|)
    ensures b[..n] == old(b[..n])
    ensures b[n..n + copied] == src[..copied]
    ensures forall i | n + copied <= i < b.Length :: b[i] == old(b[i])
  {
    copied := Min(b.Length - n, |src|);
    forall i | 0 <= i < copied {
      b[n + i] := src[i];
    }
  }
}
