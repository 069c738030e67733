/** The receive buffer of one session (tunnel/delivery.go, orderedDelivery): bounded admission by
    sequence distance and by count, in-order hand-over to a single writer, and the admission bitmap
    that feedback carries. */
module Delivery {

  import opened Common
  import opened Bits

  /** The state guarded by the delivery lock. */
  datatype Inbox = Inbox(limit: nat, pending: map<nat, Bytes>, delivered: nat, closed: bool)

  datatype Offered = Offered(inbox: Inbox, isNew: bool, ok: bool, feedback: bool)

  /** newOrderedDelivery's limit. */
  function LimitFor(limit: int): nat {
    if limit <= 0 || limit > DELIVERY_WINDOW_WIDE then DELIVERY_WINDOW_WIDE else limit
  }

  // ---- the lock regions ----

  /** One offered frame: was its content new, was it accepted, and is feedback due at once? */
  function Offer(d: Inbox, n: nat, payload: Bytes): Offered {
    if n == 0 || d.closed then Offered(d, false, false, false)
    else if n <= d.delivered then Offered(d, false, true, true)
    else if n in d.pending then Offered(d, false, true, false)
    else if n - d.delivered > d.limit || |d.pending| >= d.limit then Offered(d, false, false, false)
    else
      var e := d.(pending := d.pending[n := payload]);
      Offered(e, true, true, n > d.delivered + 1 && d.delivered + 1 !in e.pending)
  }

  /** The run loop's look at the next payload in order. */
  function NextPayload(d: Inbox): Option<Bytes> {
    if !d.closed && d.delivered + 1 in d.pending then Some(d.pending[d.delivered + 1]) else None
  }

  /** The run loop's bookkeeping once sequence n has been written. */
  function Complete(d: Inbox, n: nat): Inbox {
    d.(pending := d.pending - {n}, delivered := n)
  }

  function Close(d: Inbox): Inbox {
    d.(closed := true, pending := map[])
  }

  /** words and credit are what snapshot reports: one bit per buffered sequence above the delivered
      prefix, and the room left. */
  ghost predicate Snapshots(d: Inbox, words: seq<Word>, credit: int) {
    && |words| == 64
    && (forall b | 0 <= b < 4096 :: At(words, b) <==> b < d.limit && d.delivered + 1 + b in d.pending)
    && credit == d.limit - |d.pending|
  }

  // ---- what every lock region keeps ----

  /** Buffered sequences lie above the delivered prefix, at most `limit` above it. */
  ghost predicate Valid(d: Inbox) {
    && 0 < d.limit <= DELIVERY_WINDOW_WIDE
    && (forall n | n in d.pending :: d.delivered < n <= d.delivered + d.limit)
    && (d.closed ==> d.pending == map[])
  }

  lemma CompleteValid(d: Inbox)
    requires Valid(d) && (d.closed || d.delivered + 1 in d.pending)
    ensures Valid(Complete(d, d.delivered + 1))
  {
  }

  lemma {:induction false} IntervalSize(s: set<nat>, lo: nat, width: nat)
    requires forall n | n in s :: lo < n <= lo + width
    ensures |s| <= width
  {
    if width == 0 {
      assert forall n :: n !in s;
      assert s == {};
    } else {
      IntervalSize(s - {lo + width}, lo, width - 1);
    }
  }

  lemma {:induction false} IntervalRoom(s: set<nat>, lo: nat, width: nat, x: nat)
    requires forall n | n in s :: lo < n <= lo + width
    requires lo < x <= lo + width && x !in s
    ensures |s| < width
  {
    IntervalSize(s + {x}, lo, width);
  }

  /** Room is never what refuses a frame: a frame within the sequence bound always finds a slot, so an
      open buffer refuses exactly sequence 0 and the sequences more than `limit` ahead. */
  lemma RefusedIff(d: Inbox, n: nat, payload: Bytes)
    requires Valid(d)
    ensures !Offer(d, n, payload).ok <==> n == 0 || d.closed || n > d.delivered + d.limit
  {
    if !(n == 0 || d.closed || n <= d.delivered || n in d.pending) && n - d.delivered <= d.limit {
      IntervalRoom(d.pending.Keys, d.delivered, d.limit, n);
    }
  }

  /** The advertised credit is what can still be admitted, and fits its 16-bit field. */
  lemma CreditFits(d: Inbox)
    requires Valid(d)
    ensures 0 <= d.limit - |d.pending| <= 4096
  {
    IntervalSize(d.pending.Keys, d.delivered, d.limit);
    assert |d.pending| == |d.pending.Keys|;
  }

  // ---- the object ----

  class OrderedDelivery {
    var pending: map<nat, Bytes>
    const limit: nat
    var delivered: nat
    var closed: bool

    function State(): Inbox
      reads this
    {
      Inbox(limit, pending, delivered, closed)
    }

    constructor (bound: int)
      ensures State() == Inbox(LimitFor(bound), map[], 0, false)
      ensures limit == if bound <= 0 || bound > 4096 then 4096 else bound
      ensures Valid(State())
    {
      limit := if bound <= 0 || bound > DELIVERY_WINDOW_WIDE then DELIVERY_WINDOW_WIDE else bound;
      pending := map[];
      delivered := 0;
      closed := false;
    }

    method OfferObserved(n: nat, payload: Bytes) returns (isNew: bool, ok: bool, feedback: bool)
      modifies this
      ensures Offer(old(State()), n, payload) == Offered(State(), isNew, ok, feedback)
      ensures old(Valid(State())) ==> Valid(State())
      ensures ok <==> n != 0 && !old(closed)
                      && (n <= delivered || n in old(pending) || (n <= delivered + limit && |old(pending)| < limit))
      ensures isNew <==> ok && n > delivered && n !in old(pending)
      ensures pending == if isNew then old(pending)[n := payload] else old(pending)
      ensures delivered == old(delivered) && closed == old(closed)
      ensures feedback <==> ok && (n <= delivered || (isNew && delivered + 1 !in pending))
    {
      if n == 0 { return false, false, false; }
      if closed { return false, false, false; }
      var ack := delivered;
      if n <= ack { return false, true, true; }
      if n in pending { return false, true, false; }
      if n - ack > limit || |pending| >= limit { return false, false, false; }
      pending := pending[n := payload];
      var hasNext := ack + 1 in pending;
      var gap := n > ack + 1 && !hasNext;
      return true, true, gap;
    }

    /** Fills the bitmap from the buffered sequences, visited in no particular order. */
    method Snapshot() returns (ack: nat, bitmap: array<Word>, credit: int)
      requires Valid(State())
      ensures ack == delivered
      ensures fresh(bitmap) && bitmap.Length == 64
      ensures Snapshots(State(), bitmap[..], credit)
      ensures 0 <= credit <= 4096
    {
      ack := delivered;
      bitmap := new Word[64](i => Zero());
      ghost var d := State();
      BlankBitmap(d, bitmap[..]);
      var todo := pending.Keys;
      while todo != {}
        invariant todo <= pending.Keys
        invariant State() == d
        invariant Partial(d, todo, bitmap[..])
        decreases |todo|
      {
        var n :| n in todo;
        ghost var before := bitmap[..];
        if n > ack && n - ack <= limit {
          var bit := n - ack - 1;
          bitmap[bit / 64] := Or(bitmap[bit / 64], OneBit(bit % 64));
        }
        MarkedBitmap(d, todo, n, before, bitmap[..]);
        todo := todo - {n};
      }
      CreditFits(d);
      credit := limit - |pending|;
    }

    /** The run loop's first lock region. */
    method Next() returns (payload: Option<Bytes>)
      ensures payload == NextPayload(State())
      ensures payload.None? <==> closed || delivered + 1 !in pending
      ensures payload.Some? ==> payload.value == pending[delivered + 1]
    {
      if closed || delivered + 1 !in pending { return None; }
      return Some(pending[delivered + 1]);
    }

    /** Its second, after the write. */
    method Done(n: nat)
      modifies this
      ensures State() == Complete(old(State()), n)
      ensures delivered == n && pending == old(pending) - {n} && closed == old(closed)
    {
      pending := pending - {n};
      delivered := n;
    }

    method Shut()
      modifies this
      ensures State() == Close(old(State()))
      ensures closed && pending == map[] && delivered == old(delivered)
    {
      closed := true;
      pending := map[];
    }
  }

  /** A bitmap holding every buffered sequence except those still to do. */
  ghost predicate Partial(d: Inbox, todo: set<nat>, words: seq<Word>) {
    && |words| == 64
    && forall b | 0 <= b < 4096 ::
         At(words, b) <==> b < d.limit && d.delivered + 1 + b in d.pending.Keys - todo
  }

  lemma BlankBitmap(d: Inbox, words: seq<Word>)
    requires |words| == 64 && forall i | 0 <= i < 64 :: words[i] == Zero()
    ensures Partial(d, d.pending.Keys, words)
  {
    forall b | 0 <= b < 4096 ensures !At(words, b) {
      assert words[b / 64] == Zero();
    }
  }

  lemma MarkedBitmap(d: Inbox, todo: set<nat>, n: nat, before: seq<Word>, after: seq<Word>)
    requires Partial(d, todo, before) && n in todo && todo <= d.pending.Keys
    requires 0 < d.limit <= 4096
    requires if d.delivered < n <= d.delivered + d.limit
             then var b := n - d.delivered - 1; after == before[b / 64 := Or(before[b / 64], OneBit(b % 64))]
             else after == before
    ensures Partial(d, todo - {n}, after)
  {
    forall b | 0 <= b < 4096
      ensures At(after, b) <==> b < d.limit && d.delivered + 1 + b in d.pending.Keys - (todo - {n})
    {
      assert At(before, b) <==> b < d.limit && d.delivered + 1 + b in d.pending.Keys - todo;
    }
  }
}
