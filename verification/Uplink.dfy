/** The client's sending pump as written (tunnel/client.go, localToRemote, flushUplink, sendData): reads
    gather in an accumulator, a full or timed-out accumulator is shipped as records cut at the cap of the
    moment, and the cap may change between any two records. */
module Uplink {

  import opened Common

  /** effectivePayloadCap(UDPC_MAX_PKT): 1450 bytes less header and tag. */
  const BUFFER: nat := 1394

  /** One outcome of reading from the local connection. */
  datatype Event =
    | Got(want: nat)     // at least one byte, at most `want`, the free space and what the application wrote
    | TimedOut
    | Broken

  /** The session's changing circumstances: the cap seen at the i-th look at it, and whether the i-th
      record could be handed over. */
  datatype World = World(cap: nat -> nat, accepts: nat -> bool)

  ghost predicate Sane(w: World) {
    forall i :: 1 <= w.cap(i) <= BUFFER
  }

  /** Records within a cap: none empty, none larger than the buffer. */
  predicate WellCut(records: seq<Bytes>) {
    forall i | 0 <= i < |records| :: 1 <= |records[i]| <= BUFFER
  }

  lemma FlattenOneMore(records: seq<Bytes>, chunk: Bytes, rest: Bytes)
    ensures Flatten(records + [chunk]) + rest == Flatten(records) + (chunk + rest)
  {
    FlattenSnoc(records, chunk);
  }

  /** The records from position `from` on are each cut at the cap of their own look, and only the last may be
      shorter. */
  ghost predicate CutAtCaps(w: World, records: seq<Bytes>, from: nat, looked: nat) {
    forall i | from <= i < |records| ::
      |records[i]| <= w.cap(looked + i - from) && (i < |records| - 1 ==> |records[i]| == w.cap(looked + i - from))
  }

  /** sendData: ships the payload as records until done or refused; nothing is lost or reordered, whatever
      the caps along the way. */
  method SendData(payload: Bytes, w: World, looked: nat, shipped: seq<Bytes>)
    returns (records: seq<Bytes>, rest: Bytes, looks: nat, ok: bool)
    requires Sane(w) && WellCut(shipped)
    ensures Flatten(records) + rest == Flatten(shipped) + payload
    ensures shipped <= records && WellCut(records) && CutAtCaps(w, records, |shipped|, looked)
    ensures looked <= looks
    ensures ok ==> rest == []
    ensures !ok ==> rest != [] && !w.accepts(|records|)
  {
    records, rest, looks := shipped, payload, looked;
    while |rest| > 0
      invariant Flatten(records) + rest == Flatten(shipped) + payload
      invariant shipped <= records && WellCut(records)
      invariant looks == looked + |records| - |shipped| && CutAtCaps(w, records, |shipped|, looked)
      invariant |records| > |shipped| && |rest| > 0 ==> |records[|records| - 1]| == w.cap(looks - 1)
      decreases |rest|
    {
      var end := Min(w.cap(looks), |rest|);
      looks := looks + 1;
      if !w.accepts(|records|) { return records, rest, looks, false; }
      FlattenOneMore(records, rest[..end], rest[end..]);
      assert rest[..end] + rest[end..] == rest;
      records := records + [rest[..end]];
      rest := rest[end..];
    }
    ok := true;
  }

  /** A read of n bytes: they join the accumulator, which is shipped once it fills the current cap. */
  method Receive(input: Bytes, start: nat, n: nat, held: Bytes, w: World, looked: nat, shipped: seq<Bytes>)
    returns (records: seq<Bytes>, acc: Bytes, looks: nat, ok: bool)
    requires Sane(w) && WellCut(shipped)
    requires start + n <= |input| && |held| + n <= BUFFER
    requires Flatten(shipped) + held == input[..start]
    ensures Flatten(records) + acc == input[..start + n]
    ensures WellCut(records) && shipped <= records
    ensures ok ==> |acc| < BUFFER
    ensures looked < looks
    ensures |held| + n < w.cap(looked) ==> ok && records == shipped
    ensures |held| + n >= w.cap(looked) && ok ==> acc == []
    ensures !ok ==> !w.accepts(|records|)
  {
    records, acc, looks, ok := shipped, held + input[start..start + n], looked + 1, true;
    assert Flatten(shipped) + acc == input[..start + n] by {
      assert input[..start] + input[start..start + n] == input[..start + n];
      assert Flatten(shipped) + acc == Flatten(shipped) + held + input[start..start + n];
    }
    if |acc| >= w.cap(looked) {
      records, acc, looks, ok := SendData(acc, w, looks, records);
    }
  }

  /** localToRemote over any script of read outcomes. At every loop head the records shipped so far followed
      by the accumulator are exactly the bytes read, and the accumulator is smaller than the buffer, so the
      next read always has room. When the pump stops, what it held is the unsent tail. */
  method LocalToRemote(input: Bytes, script: seq<Event>, w: World)
    returns (records: seq<Bytes>, acc: Bytes, taken: nat, alive: bool)
    requires Sane(w)
    ensures taken <= |input|
    ensures Flatten(records) + acc == input[..taken]
    ensures WellCut(records)
    ensures alive ==> |acc| < BUFFER
    ensures alive ==> forall i | 0 <= i < |script| :: !script[i].Broken?
    ensures alive && script != [] && script[|script| - 1].TimedOut? ==> acc == []
    ensures !alive ==> !w.accepts(|records|) || exists i | 0 <= i < |script| :: script[i].Broken?
  {
    records, acc, taken, alive := [], [], 0, true;
    var looks: nat := 0;
    var i := 0;
    while i < |script|
      invariant 0 <= i <= |script| && taken <= |input|
      invariant Flatten(records) + acc == input[..taken]
      invariant WellCut(records)
      invariant |acc| < BUFFER
      invariant forall j | 0 <= j < i :: !script[j].Broken?
      invariant i > 0 && script[i - 1].TimedOut? ==> acc == []
    {
      var free := BUFFER - |acc|;
      match script[i] {
        case Got(want) =>
          var n: nat := Min(want, Min(free, |input| - taken));
          if n > 0 {
            var ok;
            records, acc, looks, ok := Receive(input, taken, n, acc, w, looks, records);
            taken := taken + n;
            if !ok { return records, acc, taken, false; }
          }
        case TimedOut =>
          var ok;
          records, acc, looks, ok := SendData(acc, w, looks, records);
          if !ok { return records, acc, taken, false; }
        case Broken =>
          return records, acc, taken, false;
      }
      i := i + 1;
    }
  }
}
