/** Which cumulative acknowledgements deserve a datagram of their own (ackCoalescer in
    tunnel/session_transport.go). Times are in nanoseconds; the clock is an input. */
module AckCoalescer {

  import opened Common

  /** `at` is None until something has been authorised: the zero time lies further back than any interval. */
  datatype Coalescer = Coalescer(last: nat, at: Option<int>, pending: nat)

  const ZERO := Coalescer(0, None, 0)

  /** One call, and whether the datagram it stands for was really written. A claim or flush is committed before its
      write, which may fail; a commit follows its write, but the server commits without knowing the outcome. */
  datatype Event =
    | Commit(ack: nat, written: bool)
    | Claim(ack: nat, interval: nat, urgent: bool, now: int, written: bool)
    | Flush(interval: nat, now: int, written: bool)

  predicate Elapsed(c: Coalescer, interval: nat, now: int) {
    c.at.None? || now - c.at.value >= interval
  }

  predicate Authorises(c: Coalescer, ack: nat, interval: nat, urgent: bool, now: int) {
    urgent || (ack > c.last && Elapsed(c, interval, now))
  }

  predicate Due(c: Coalescer, interval: nat, now: int) {
    c.pending != 0 && c.pending > c.last && Elapsed(c, interval, now)
  }

  function Sent(c: Coalescer, ack: nat, now: int): Coalescer {
    Coalescer(Max(c.last, ack), Some(now), 0)
  }

  function Committed(c: Coalescer, ack: nat): Coalescer {
    if ack == 0 then c else c.(last := Max(c.last, ack), pending := if ack >= c.pending then 0 else c.pending)
  }

  function Claimed(c: Coalescer, ack: nat, interval: nat, urgent: bool, now: int): Coalescer {
    if Authorises(c, ack, interval, urgent, now) then Sent(c, ack, now)
    else if ack <= c.last then c
    else c.(pending := Max(c.pending, ack))
  }

  function Flushed(c: Coalescer, interval: nat, now: int): Coalescer {
    if Due(c, interval, now) then Sent(c, c.pending, now) else c
  }

  /** How long until what is still held back may go out. */
  function Wait(c: Coalescer, interval: nat, now: int): nat {
    if c.pending == 0 || c.pending <= c.last || c.at.None? then 0 else Max(0, interval - (now - c.at.value))
  }

  class AckCoalescer {
    var lastValue: nat
    var lastAt: Option<int>
    var pending: nat

    function State(): Coalescer
      reads this
    {
      Coalescer(lastValue, lastAt, pending)
    }

    constructor ()
      ensures State() == ZERO
    {
      lastValue, lastAt, pending := 0, None, 0;
    }

    method CommitSent(ackSeq: nat)
      modifies this
      ensures State() == Committed(old(State()), ackSeq)
      ensures lastValue == Max(old(lastValue), ackSeq) && lastAt == old(lastAt)
      ensures pending == if ackSeq != 0 && ackSeq >= old(pending) then 0 else old(pending)
    {
      if ackSeq == 0 { return; }
      if ackSeq > lastValue { lastValue := ackSeq; }
      if ackSeq >= pending { pending := 0; }
    }

    /** One Ack field per wire; None is a wire too short to hold a header. */
    method CommitSentBatch(acks: seq<Option<nat>>)
      modifies this
      ensures exists top: nat :: IsTop(acks, top) && State() == Committed(old(State()), top)
    {
      var ackSeq, i := 0, 0;
      while i < |acks|
        invariant 0 <= i <= |acks|
        invariant State() == old(State())
        invariant IsTop(acks[..i], ackSeq)
      {
        assert acks[..i + 1] == acks[..i] + [acks[i]];
        if acks[i].Some? && acks[i].value > ackSeq { ackSeq := acks[i].value; }
        i := i + 1;
      }
      assert acks[..i] == acks;
      CommitSent(ackSeq);
    }

    method ClaimFeedback(ackSeq: nat, interval: nat, urgent: bool, now: int) returns (ok: bool)
      modifies this
      ensures State() == Claimed(old(State()), ackSeq, interval, urgent, now)
      ensures ok == Authorises(old(State()), ackSeq, interval, urgent, now)
      ensures ok <==> urgent || (ackSeq > old(lastValue)
                                 && (old(lastAt).None? || now - old(lastAt).value >= interval))
      ensures ok ==> lastValue == Max(old(lastValue), ackSeq) && lastAt == Some(now) && pending == 0
      ensures !ok ==> lastValue == old(lastValue) && lastAt == old(lastAt)
      ensures !ok ==> pending == if ackSeq > lastValue then Max(old(pending), ackSeq) else old(pending)
    {
      if urgent {
        MarkSent(ackSeq, now);
        return true;
      }
      if ackSeq == 0 || ackSeq <= lastValue { return false; }
      if ackSeq > pending { pending := ackSeq; }
      if lastAt.Some? && now - lastAt.value < interval { return false; }
      MarkSent(ackSeq, now);
      return true;
    }

    method FlushDue(interval: nat, now: int) returns (ackSeq: nat, wait: nat)
      modifies this
      ensures State() == Flushed(old(State()), interval, now)
      ensures ackSeq == if Due(old(State()), interval, now) then old(pending) else 0
      ensures wait == Wait(State(), interval, now)
      ensures ackSeq != 0 <==> old(pending) > old(lastValue)
                               && (old(lastAt).None? || now - old(lastAt).value >= interval)
      ensures ackSeq != 0 ==> ackSeq == lastValue == old(pending) && pending == wait == 0 && lastAt == Some(now)
      ensures ackSeq == 0 ==> State() == old(State())
    {
      ackSeq := 0;
      if pending != 0 && pending > lastValue && (lastAt.None? || now - lastAt.value >= interval) {
        ackSeq := pending;
        MarkSent(pending, now);
      }
      if pending == 0 || pending <= lastValue { return ackSeq, 0; }
      wait := Max(0, interval - (now - lastAt.value));
    }

    method MarkSent(ackSeq: nat, now: int)
      modifies this
      ensures State() == Sent(old(State()), ackSeq, now)
    {
      if ackSeq > lastValue { lastValue := ackSeq; }
      pending := 0;
      lastAt := Some(now);
    }
  }

  predicate IsTop(acks: seq<Option<nat>>, top: nat) {
    && (forall i | 0 <= i < |acks| && acks[i].Some? :: acks[i].value <= top)
    && (top == 0 || Some(top) in acks)
  }

  // ---- runs ----

  function Next(c: Coalescer, e: Event): Coalescer {
    match e
    case Commit(ack, _) => Committed(c, ack)
    case Claim(ack, interval, urgent, now, _) => Claimed(c, ack, interval, urgent, now)
    case Flush(interval, now, _) => Flushed(c, interval, now)
  }

  /** The acknowledgement an event authorises a feedback datagram for, if any. */
  function Emits(c: Coalescer, e: Event): Option<nat> {
    match e
    case Commit(_, _) => None
    case Claim(ack, interval, urgent, now, _) =>
      if Authorises(c, ack, interval, urgent, now) then Some(ack) else None
    case Flush(interval, now, _) => if Due(c, interval, now) then Some(c.pending) else None
  }

  /** The acknowledgement an event takes for sent, by record or by feedback; 0 is none. */
  function Announces(c: Coalescer, e: Event): nat {
    if e.Commit? then e.ack else match Emits(c, e) case Some(ack) => ack case None => 0
  }

  function StateAfter(events: seq<Event>): Coalescer {
    if events == [] then ZERO else Next(StateAfter(events[..|events| - 1]), events[|events| - 1])
  }

  function EmittedAt(events: seq<Event>, i: nat): Option<nat>
    requires i < |events|
  {
    Emits(StateAfter(events[..i]), events[i])
  }

  /** The highest acknowledgement taken for sent. */
  function Announced(events: seq<Event>): nat {
    if events == [] then 0
    else
      var before := events[..|events| - 1];
      Max(Announced(before), Announces(StateAfter(before), events[|events| - 1]))
  }

  /** The highest acknowledgement really written towards the peer. */
  function Told(events: seq<Event>): nat {
    if events == [] then 0
    else
      var before, e := events[..|events| - 1], events[|events| - 1];
      Max(Told(before), if e.written then Announces(StateAfter(before), e) else 0)
  }

  /** The highest acknowledgement anyone asked to have sent. */
  function Asked(events: seq<Event>): nat {
    if events == [] then 0
    else
      var e := events[|events| - 1];
      Max(Asked(events[..|events| - 1]), if e.Claim? then e.ack else 0)
  }

  /** The watermark is the highest value taken for sent, at least what was written; what is held back is above it,
      and was asked for. */
  lemma {:induction false} WatermarkIsAnnounced(events: seq<Event>)
    ensures var c := StateAfter(events);
            && c.last == Announced(events) >= Told(events)
            && (c.pending == 0 || c.last < c.pending <= Asked(events))
  {
    if events == [] {
    } else {
      WatermarkIsAnnounced(events[..|events| - 1]);
    }
  }

  /** The write behind an announcement fails, and it went beyond the watermark. */
  predicate Overstates(c: Coalescer, e: Event) { !e.written && Announces(c, e) > c.last }

  predicate WatermarkTold(events: seq<Event>) { StateAfter(events).last == Told(events) }

  predicate AlwaysTold(events: seq<Event>) { forall n | 0 <= n <= |events| :: WatermarkTold(events[..n]) }

  predicate NeverOverstates(events: seq<Event>) {
    forall n | 0 <= n < |events| :: !Overstates(StateAfter(events[..n]), events[n])
  }

  lemma AlwaysToldStep(events: seq<Event>)
    requires events != []
    ensures AlwaysTold(events) <==> AlwaysTold(events[..|events| - 1]) && WatermarkTold(events)
  {
    var before := events[..|events| - 1];
    assert events[..|events|] == events;
    assert forall n | 0 <= n <= |before| :: before[..n] == events[..n];
  }

  lemma NeverOverstatesStep(events: seq<Event>)
    requires events != []
    ensures NeverOverstates(events)
            <==> NeverOverstates(events[..|events| - 1])
                 && !Overstates(StateAfter(events[..|events| - 1]), events[|events| - 1])
  {
    var before := events[..|events| - 1];
    assert forall n | 0 <= n <= |before| :: before[..n] == events[..n];
  }

  lemma WatermarkToldStep(events: seq<Event>)
    requires events != [] && WatermarkTold(events[..|events| - 1])
    ensures WatermarkTold(events) <==> !Overstates(StateAfter(events[..|events| - 1]), events[|events| - 1])
  {
    WatermarkIsAnnounced(events[..|events| - 1]);
    WatermarkIsAnnounced(events);
  }

  /** All along a run the watermark is exactly what was written, if and only if no write failed that would have
      raised it. */
  lemma {:induction false} WatermarkToldExactly(events: seq<Event>)
    ensures AlwaysTold(events) <==> NeverOverstates(events)
    decreases |events|
  {
    if events == [] {
      assert WatermarkTold([]);
    } else {
      var before := events[..|events| - 1];
      WatermarkToldExactly(before);
      AlwaysToldStep(events);
      NeverOverstatesStep(events);
      if AlwaysTold(before) {
        assert before[..|before|] == before;
        WatermarkToldStep(events);
      }
    }
  }

  /** Nothing is sent for nothing: a feedback datagram that is not urgent carries more than was ever announced. */
  lemma NoWaste(events: seq<Event>, i: nat)
    requires i < |events| && EmittedAt(events, i).Some?
    requires !(events[i].Claim? && events[i].urgent)
    ensures EmittedAt(events, i).value > Announced(events[..i]) >= Told(events[..i])
  {
    WatermarkIsAnnounced(events[..i]);
  }

  // ---- spacing ----

  predicate Clocked(events: seq<Event>) {
    forall i, j | 0 <= i < j < |events| && !events[i].Commit? && !events[j].Commit? :: events[i].now <= events[j].now
  }

  lemma {:induction false} LatestEmission(events: seq<Event>, i: nat)
    requires Clocked(events) && i < |events| && EmittedAt(events, i).Some?
    ensures StateAfter(events).at.Some? && StateAfter(events).at.value >= events[i].now
    decreases |events|
  {
    var n := |events| - 1;
    var before := events[..n];
    if i < n {
      assert before[..i] == events[..i];
      LatestEmission(before, i);
    }
  }

  /** No two feedback datagrams are authorised closer than one interval unless the later one is urgent. */
  lemma Spaced(events: seq<Event>, i: nat, j: nat)
    requires Clocked(events) && i < j < |events|
    requires EmittedAt(events, i).Some? && EmittedAt(events, j).Some?
    requires !(events[j].Claim? && events[j].urgent)
    ensures events[j].now - events[i].now >= events[j].interval
  {
    var before := events[..j];
    assert before[..i] == events[..i];
    LatestEmission(before, i);
  }

  // ---- when an advance is forgotten ----

  /** Whatever was asked for has been written or is still held back. */
  predicate Kept(events: seq<Event>) {
    Asked(events) <= Told(events) || StateAfter(events).pending == Asked(events)
  }

  /** An authorised claim below what is held back clears it. */
  predicate Overtakes(c: Coalescer, e: Event) {
    e.Claim? && Authorises(c, e.ack, e.interval, e.urgent, e.now) && e.ack < c.pending
  }

  /** The write fails of something the peer was not told: a new claim, or what the event drops from being held back. */
  predicate Unsent(c: Coalescer, told: nat, e: Event) {
    && !e.written
    && match e
       case Commit(ack, _) => ack >= c.pending > 0
       case Claim(ack, interval, urgent, now, _) =>
         Authorises(c, ack, interval, urgent, now) && Max(c.pending, ack) > told
       case Flush(interval, now, _) => Due(c, interval, now)
  }

  /** A claim is turned away as old news by a watermark that earlier went beyond what was written. */
  predicate Suppressed(c: Coalescer, told: nat, e: Event) {
    && e.Claim? && !Authorises(c, e.ack, e.interval, e.urgent, e.now)
    && c.pending == 0 && told < e.ack <= c.last
  }

  predicate Loses(c: Coalescer, told: nat, e: Event) {
    Overtakes(c, e) || Unsent(c, told, e) || Suppressed(c, told, e)
  }

  predicate LosesAt(events: seq<Event>, n: nat)
    requires n < |events|
  {
    Loses(StateAfter(events[..n]), Told(events[..n]), events[n])
  }

  lemma KeptStep(events: seq<Event>)
    requires events != [] && Kept(events[..|events| - 1])
    ensures Kept(events) <==> !LosesAt(events, |events| - 1)
  {
    WatermarkIsAnnounced(events[..|events| - 1]);
  }

  predicate AlwaysKept(events: seq<Event>) { forall n | 0 <= n <= |events| :: Kept(events[..n]) }

  predicate NeverLoses(events: seq<Event>) { forall n | 0 <= n < |events| :: !LosesAt(events, n) }

  lemma AlwaysKeptStep(events: seq<Event>)
    requires events != []
    ensures AlwaysKept(events) <==> AlwaysKept(events[..|events| - 1]) && Kept(events)
  {
    var before := events[..|events| - 1];
    assert events[..|events|] == events;
    assert forall n | 0 <= n <= |before| :: before[..n] == events[..n];
  }

  lemma NeverLosesStep(events: seq<Event>)
    requires events != []
    ensures NeverLoses(events) <==> NeverLoses(events[..|events| - 1]) && !LosesAt(events, |events| - 1)
  {
    var before := events[..|events| - 1];
    assert forall n | 0 <= n <= |before| :: before[..n] == events[..n];
    assert forall n | 0 <= n < |before| :: LosesAt(before, n) == LosesAt(events, n);
  }

  /** An advance is never lost during a run exactly when no authorised claim overtakes a larger one that is held back,
      no write fails of something the peer was not told, and no claim meets a watermark that went beyond what was
      written. */
  lemma {:induction false} ForgetsExactly(events: seq<Event>)
    ensures AlwaysKept(events) <==> NeverLoses(events)
    decreases |events|
  {
    if events == [] {
      assert Kept([]);
    } else {
      var before := events[..|events| - 1];
      ForgetsExactly(before);
      AlwaysKeptStep(events);
      NeverLosesStep(events);
      if AlwaysKept(before) {
        assert before[..|before|] == before;
        KeptStep(events);
      }
    }
  }

  predicate Ordered(events: seq<Event>) {
    forall i, j | 0 <= i < j < |events| && events[i].Claim? && events[j].Claim? :: events[i].ack <= events[j].ack
  }

  predicate AllWritten(events: seq<Event>) { forall i | 0 <= i < |events| :: events[i].written }

  lemma {:induction false} AskedIsLatest(events: seq<Event>, ack: nat)
    requires forall i | 0 <= i < |events| && events[i].Claim? :: events[i].ack <= ack
    ensures Asked(events) <= ack
  {
    if events == [] {
    } else {
      AskedIsLatest(events[..|events| - 1], ack);
    }
  }

  lemma {:induction false} WrittenIsTold(events: seq<Event>)
    requires AllWritten(events)
    ensures Told(events) == Announced(events)
  {
    if events == [] {
    } else {
      WrittenIsTold(events[..|events| - 1]);
    }
  }

  /** While writes succeed, claims that never go backwards, as a cumulative acknowledgement does not, lose nothing. */
  lemma OrderedForgetsNothing(events: seq<Event>)
    requires Ordered(events) && AllWritten(events)
    ensures Kept(events)
  {
    forall n | 0 <= n < |events| ensures !LosesAt(events, n) {
      WatermarkIsAnnounced(events[..n]);
      WrittenIsTold(events[..n]);
      if events[n].Claim? {
        AskedIsLatest(events[..n], events[n].ack);
      }
    }
    ForgetsExactly(events);
    assert events[..|events|] == events;
  }

  /** Without that order an advance can be lost though every write succeeds: 10 is deferred, then an urgent 7 clears
      it. */
  lemma ReorderedClaimsForget()
    ensures exists events: seq<Event> :: |events| == 3 && AllWritten(events) && !Kept(events)
  {
    var first, second := Claim(1, 5, false, 0, true), Claim(10, 5, false, 1, true);
    var third := Claim(7, 5, true, 2, true);
    var events := [first, second, third];
    assert events[..2] == [first, second] && events[..2][..1] == [first] && events[..2][..1][..0] == [];
    assert StateAfter([first]) == Coalescer(1, Some(0), 0);
    assert StateAfter([first, second]) == Coalescer(1, Some(0), 10);
    assert Asked([first]) == 1 && Told([first]) == 1;
    assert Asked([first, second]) == 10 && Told([first, second]) == 1;
    assert Asked(events) == 10 && Told(events) == 7;
  }

  /** Without successful writes it can be lost though the claims are ordered: one authorised claim whose write fails
      leaves nothing held back. */
  lemma FailedWriteForgets(ack: nat, interval: nat, now: int)
    requires ack > 0
    ensures var events := [Claim(ack, interval, false, now, false)];
            && Ordered(events) && !Kept(events)
            && StateAfter(events) == Coalescer(ack, Some(now), 0) && Told(events) == 0
  {
    var e := Claim(ack, interval, false, now, false);
    assert [e][..0] == [];
    assert StateAfter([e]) == Next(ZERO, e);
    assert Told([]) == 0 && Asked([e]) == ack;
    assert Told([e]) == Max(Told([]), 0);
  }

  /** And it stays lost: after an announcement, written or not, only an urgent claim or a larger advance is ever
      emitted. */
  lemma AnnouncedIsNotRepeated(events: seq<Event>, i: nat, j: nat)
    requires i < j < |events| && EmittedAt(events, j).Some?
    requires !(events[j].Claim? && events[j].urgent)
    ensures EmittedAt(events, j).value > Announces(StateAfter(events[..i]), events[i])
  {
    NoWaste(events, j);
    AnnouncedGrows(events, i, j);
  }

  lemma {:induction false} AnnouncedGrows(events: seq<Event>, i: nat, j: nat)
    requires i < j <= |events|
    ensures Announced(events[..j]) >= Announces(StateAfter(events[..i]), events[i])
    decreases j
  {
    assert events[..j][..j - 1] == events[..j - 1];
    if i < j - 1 {
      AnnouncedGrows(events, i, j - 1);
    }
  }

  /** While writes succeed, a flush either leaves nothing asked for untold, or asks to be called again within the
      interval; calling it then leaves nothing. */
  lemma FlushCatchesUp(events: seq<Event>, interval: nat, now: int, later: int)
    requires Kept(events)
    ensures var flushed := events + [Flush(interval, now, true)];
            var wait := Wait(StateAfter(flushed), interval, now);
            && Kept(flushed)
            && (wait == 0 ==> Asked(events) <= Told(flushed))
            && (StateAfter(events).at.None? || StateAfter(events).at.value <= now ==> wait <= interval)
            && (later >= now + wait ==> Asked(events) <= Told(flushed + [Flush(interval, later, true)]))
  {
    var flushed := events + [Flush(interval, now, true)];
    var again := flushed + [Flush(interval, later, true)];
    assert flushed[..|events|] == events && again[..|flushed|] == flushed;
    WatermarkIsAnnounced(events);
    WatermarkIsAnnounced(flushed);
  }

  /** A due flush whose write fails loses what it was to send. */
  lemma FailedFlushForgets(events: seq<Event>, interval: nat, now: int)
    requires Due(StateAfter(events), interval, now)
    ensures !Kept(events + [Flush(interval, now, false)])
  {
    var flushed := events + [Flush(interval, now, false)];
    assert flushed[..|events|] == events;
    WatermarkIsAnnounced(events);
  }
}
