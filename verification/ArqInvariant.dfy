/** What every step of the session keeps. Each clause names only the parts of the state it relates, so a
    step has work to do only for the clauses whose parts it changes. */
module ArqInvariant {

  import opened Common
  import opened SendFlow
  import opened Outstanding
  import opened Arq
  import Rtt = RttEstimator
  import Sack
  import Bits
  import Delivery
  import Replay

  // ---- sending end ----

  /** No byte is lost or duplicated between reading and filing. */
  ghost predicate Conserved(taken: Bytes, sent: seq<Bytes>, pump: Pump) {
    taken == Flatten(sent) + Hand(pump)
  }

  ghost predicate Counted(sendSeq: nat, sent: seq<Bytes>, pump: Pump) {
    match pump
    case Numbered(n, _, _) => n == |sent| + 1 && sendSeq == |sent| + 2
    case Sealed(wire, _) => wire.Data? && wire.seqNo == |sent| + 1 && sendSeq == |sent| + 2
    case Halted(_) => |sent| + 1 <= sendSeq <= |sent| + 2
    case _ => sendSeq == |sent| + 1
  }

  /** Packet numbers are given out once. */
  ghost predicate Registered(sealed: map<nat, Record>, nextNo: nat, pump: Pump) {
    && 0 < nextNo
    && (forall no | no in sealed :: 0 < no < nextNo && sealed[no].packetNo == no)
    && (pump.Sealed? || pump.Filed? ==> pump.wire.packetNo in sealed && sealed[pump.wire.packetNo] == pump.wire)
  }

  ghost predicate AllReleased(rs: seq<Record>, sealed: map<nat, Record>, sent: seq<Bytes>) {
    forall r | r in rs :: Released(r, sealed, sent)
  }

  ghost predicate SetReleased(rs: set<Record>, sealed: map<nat, Record>, sent: seq<Bytes>) {
    forall r | r in rs :: Released(r, sealed, sent)
  }

  /** The map holds exactly the filed sequences above the acknowledged prefix, each with its record. */
  ghost predicate Retained(unacked: Unacked, base: nat, sent: seq<Bytes>, sealed: map<nat, Record>) {
    && base <= |sent|
    && (forall n: nat :: n in unacked <==> base < n <= |sent|)
    && (forall n | n in unacked :: unacked[n].wire.Data? && unacked[n].wire.seqNo == n
                                   && Released(unacked[n].wire, sealed, sent))
  }

  ghost predicate ExactWatermark(unacked: Unacked, lowest: nat, base: nat) {
    unacked != map[] ==> lowest == base + 1
  }

  /** The flight never exceeds the receiver's limit; an admitted frame still fits. */
  ghost predicate Windowed(sent: seq<Bytes>, base: nat, pump: Pump, wide: bool) {
    && |sent| - base <= Ceiling(wide)
    && (pump.Admitted? || pump.Numbered? || pump.Sealed? ==> |sent| - base < Ceiling(wide))
  }

  ghost predicate Tuned(flow: Flow, est: Rtt.Estimate, wide: bool) {
    Sound(flow) && flow.max <= Ceiling(wide) && Rtt.Sound(est)
  }

  /** A frame is scheduled at most 16 times, with a timeout between 1 ms and 10 s. */
  predicate WithinBudget(p: Pkt) {
    p.retries <= MAX_RETRIES && MS <= p.rto <= Rtt.MAX_RTO
  }

  ghost predicate Budgeted(unacked: Unacked) {
    forall n | n in unacked :: WithinBudget(unacked[n])
  }

  /** A frame still marked queued is on its way through the transmit queue. */
  ghost predicate Queued(unacked: Unacked, txq: seq<Record>, batch: seq<Record>, pump: Pump) {
    forall n | n in unacked && unacked[n].queued ::
      unacked[n].wire in txq || unacked[n].wire in batch || pump.Halted? || (pump.Filed? && pump.wire == unacked[n].wire)
  }

  // ---- receiving end ----

  ghost predicate Buffered(inbox: Delivery.Inbox, sent: seq<Bytes>, base: nat, wide: bool) {
    && Delivery.Valid(inbox) && inbox.limit == Ceiling(wide)
    && base <= inbox.delivered <= |sent|
    && forall n | n in inbox.pending :: 0 < n <= |sent| && inbox.pending[n] == sent[n - 1]
  }

  /** What was written is what was filed, in order, each once. */
  ghost predicate Streamed(writer: Writer, inbox: Delivery.Inbox, out: Bytes, sent: seq<Bytes>) {
    && inbox.delivered <= |sent|
    && match writer
       case Idle => out == Flatten(sent[..inbox.delivered])
       case Writing(n, payload) =>
         && n == inbox.delivered + 1 <= |sent| && payload == sent[n - 1]
         && (inbox.closed || n in inbox.pending)
         && out == Flatten(sent[..inbox.delivered])
       case Written(n) =>
         && n == inbox.delivered + 1 <= |sent|
         && (inbox.closed || n in inbox.pending)
         && out == Flatten(sent[..n])
       case Failed(partial) =>
         && inbox.delivered < |sent| && partial <= sent[inbox.delivered]
         && out == Flatten(sent[..inbox.delivered]) + partial
  }

  /** Each write was one whole filed payload. */
  ghost predicate Recorded(writer: Writer, delivered: nat, writes: seq<Bytes>, sent: seq<Bytes>) {
    && delivered <= |sent|
    && if writer.Written? then delivered < |sent| && writes == sent[..delivered + 1] else writes == sent[..delivered]
  }

  /** The receiver has sequence n: written, buffered, or the session is closed. */
  predicate Holds(inbox: Delivery.Inbox, n: nat) {
    n <= inbox.delivered || n in inbox.pending || inbox.closed
  }

  /** Feedback tells the truth, and goes on telling it. */
  ghost predicate True(ack: nat, data: Bytes, inbox: Delivery.Inbox, sent: seq<Bytes>) {
    && ack <= inbox.delivered
    && Sack.WellShaped(data)
    && forall n: nat | Sack.Reports(ack, Sack.Words(data), n) :: n <= |sent| && Holds(inbox, n)
  }

  ghost predicate Truthful(acks: set<nat>, drafts: set<Draft>, back: set<Feedback>, backNo: nat,
                           inbox: Delivery.Inbox, sent: seq<Bytes>) {
    && (forall a | a in acks :: a <= inbox.delivered)
    && (forall d | d in drafts :: True(d.ack, d.data, inbox, sent))
    && (forall fb | fb in back :: fb.packetNo < backNo && True(fb.ack, fb.data, inbox, sent))
  }

  /** Whatever the sender believes buffered, the receiver has. */
  ghost predicate NoReneging(unacked: Unacked, inbox: Delivery.Inbox) {
    forall n | n in unacked && unacked[n].sacked :: Holds(inbox, n)
  }

  /** A data record whose number the filter would reject as seen is either being processed or its
      sequence is held: rejecting it again loses nothing. */
  ghost predicate Replayed(filter: Replay.Plain, sealed: map<nat, Record>, busy: set<Record>,
                           refused: set<Record>, inbox: Delivery.Inbox) {
    && busy !! refused
    && (forall r | r in busy || r in refused :: r.Data? && r.packetNo in filter.accepted)
    && (forall no | no in filter.accepted :: no in sealed)
    && (forall no | no in filter.accepted && sealed[no].Data? ::
          sealed[no] in busy || sealed[no] in refused || Holds(inbox, sealed[no].seqNo))
  }

  // ---- together ----

  ghost predicate SenderInv(s: Sys) {
    && Conserved(s.taken, s.sent, s.pump)
    && Counted(s.sendSeq, s.sent, s.pump)
    && Registered(s.sealed, s.nextNo, s.pump)
    && (s.pump.Filed? ==> Released(s.pump.wire, s.sealed, s.sent))
    && AllReleased(s.txq, s.sealed, s.sent)
    && AllReleased(s.batch, s.sealed, s.sent)
    && Retained(s.half.unacked, s.base, s.sent, s.sealed)
    && ExactWatermark(s.half.unacked, s.half.lowest, s.base)
    && Windowed(s.sent, s.base, s.pump, s.wide)
    && Tuned(s.half.flow, s.half.est, s.wide)
    && Budgeted(s.half.unacked)
    && Queued(s.half.unacked, s.txq, s.batch, s.pump)
  }

  ghost predicate ReceiverInv(s: Sys) {
    && SetReleased(s.net, s.sealed, s.sent)
    && SetReleased(s.busy, s.sealed, s.sent)
    && SetReleased(s.refused, s.sealed, s.sent)
    && Buffered(s.inbox, s.sent, s.base, s.wide)
    && Streamed(s.writer, s.inbox, s.out, s.sent)
    && Recorded(s.writer, s.inbox.delivered, s.writes, s.sent)
    && Truthful(s.acks, s.drafts, s.back, s.backNo, s.inbox, s.sent)
    && NoReneging(s.half.unacked, s.inbox)
    && Replayed(s.filter, s.sealed, s.busy, s.refused, s.inbox)
  }

  ghost predicate Inv(s: Sys) { SenderInv(s) && ReceiverInv(s) }

  lemma InitInv(s: Sys)
    requires Init(s)
    ensures Inv(s)
  {
  }

  // ---- the pump ----

  lemma ReadKeeps(s: Sys, bytes: Bytes)
    requires Inv(s) && s.pump.Reading?
    ensures Inv(DoRead(s, bytes))
  {
  }

  lemma FlushKeeps(s: Sys)
    requires Inv(s) && s.pump.Reading?
    ensures Inv(DoFlush(s))
  {
  }

  lemma RestKeeps(s: Sys)
    requires Inv(s) && s.pump == Flushing([])
    ensures Inv(DoRest(s))
  {
  }

  lemma ChunkKeeps(s: Sys, cap: nat)
    requires Inv(s) && s.pump.Flushing?
    ensures Inv(DoChunk(s, cap))
  {
    var end := Min(cap, |s.pump.rest|);
    assert s.pump.rest[..end] + s.pump.rest[end..] == s.pump.rest;
  }

  /** The window check: the flight is the number of retained frames, so one more still fits. */
  lemma AdmitKeeps(s: Sys)
    requires Inv(s) && s.pump.Blocked? && |s.half.unacked| < Window(s.half.flow)
    ensures Inv(DoAdmit(s))
  {
    FlightSize(s.half.unacked.Keys, s.base, |s.sent| - s.base);
    assert |s.half.unacked| == |s.half.unacked.Keys|;
  }

  lemma {:induction false} FlightSize(keys: set<nat>, lo: nat, width: nat)
    requires forall n: nat :: n in keys <==> lo < n <= lo + width
    ensures |keys| == width
  {
    if width == 0 {
      assert forall n :: n !in keys;
      assert keys == {};
    } else {
      FlightSize(keys - {lo + width}, lo, width - 1);
    }
  }

  lemma NumberKeeps(s: Sys)
    requires Inv(s) && s.pump.Admitted?
    ensures Inv(DoNumber(s))
  {
  }

  lemma SubmitKeeps(s: Sys)
    requires Inv(s) && s.pump.Filed?
    ensures Inv(DoSubmit(s))
  {
    var t := DoSubmit(s);
    assert t.pump == Flushing(s.pump.rest);
    forall r | r in s.txq ensures r in t.txq { }
  }

  lemma HaltKeeps(s: Sys)
    requires Inv(s)
    ensures Inv(DoHalt(s))
  {
  }

  // ---- histories grow ----

  /** sealed' and sent' continue sealed and sent. */
  ghost predicate Continues(sealed: map<nat, Record>, sent: seq<Bytes>, sealed': map<nat, Record>, sent': seq<Bytes>) {
    && sent <= sent'
    && forall no | no in sealed :: no in sealed' && sealed'[no] == sealed[no]
  }

  lemma RecordsContinue(s: Sys, sealed: map<nat, Record>, sent: seq<Bytes>)
    requires Inv(s) && Continues(s.sealed, s.sent, sealed, sent)
    ensures AllReleased(s.txq, sealed, sent) && AllReleased(s.batch, sealed, sent)
    ensures SetReleased(s.net, sealed, sent) && SetReleased(s.busy, sealed, sent) && SetReleased(s.refused, sealed, sent)
    ensures forall n | n in s.half.unacked :: Released(s.half.unacked[n].wire, sealed, sent)
  {
  }

  lemma ReplayContinues(s: Sys, sealed: map<nat, Record>)
    requires Inv(s) && Continues(s.sealed, s.sent, sealed, s.sent)
    ensures Replayed(s.filter, sealed, s.busy, s.refused, s.inbox)
  {
  }

  lemma StreamContinues(s: Sys, sent: seq<Bytes>)
    requires Inv(s) && s.sent <= sent
    ensures Buffered(s.inbox, sent, s.base, s.wide)
    ensures Streamed(s.writer, s.inbox, s.out, sent)
    ensures Recorded(s.writer, s.inbox.delivered, s.writes, sent)
    ensures Truthful(s.acks, s.drafts, s.back, s.backNo, s.inbox, sent)
  {
    assert sent[..s.inbox.delivered] == s.sent[..s.inbox.delivered];
    if s.inbox.delivered < |s.sent| {
      assert sent[..s.inbox.delivered + 1] == s.sent[..s.inbox.delivered + 1];
    }
  }

  lemma SealKeeps(s: Sys)
    requires Inv(s) && s.pump.Numbered?
    ensures Inv(DoSeal(s))
  {
    var t := DoSeal(s);
    RecordsContinue(s, t.sealed, t.sent);
    ReplayContinues(s, t.sealed);
  }

  lemma SealOtherKeeps(s: Sys)
    requires Inv(s)
    ensures Inv(DoSealOther(s))
  {
    var t := DoSealOther(s);
    RecordsContinue(s, t.sealed, t.sent);
    ReplayContinues(s, t.sealed);
  }

  lemma FileKeeps(s: Sys, now: int)
    requires Inv(s) && s.pump.Sealed? && s.pump.wire.Data?
    ensures Inv(DoFile(s, now))
  {
    var t := DoFile(s, now);
    RecordsContinue(s, t.sealed, t.sent);
    StreamContinues(s, t.sent);
    FlattenSnoc(s.sent, s.pump.wire.payload);
    FiledHalf(s, now);
  }

  lemma FiledHalf(s: Sys, now: int)
    requires Inv(s) && s.pump.Sealed? && s.pump.wire.Data?
    ensures var t := DoFile(s, now);
            && Released(t.pump.wire, t.sealed, t.sent)
            && Retained(t.half.unacked, t.base, t.sent, t.sealed)
            && ExactWatermark(t.half.unacked, t.half.lowest, t.base)
            && Budgeted(t.half.unacked)
            && Queued(t.half.unacked, t.txq, t.batch, t.pump)
            && NoReneging(t.half.unacked, t.inbox)
  {
    var t := DoFile(s, now);
    RecordsContinue(s, t.sealed, t.sent);
    assert |s.sent| in s.half.unacked <==> s.base < |s.sent|;
  }

  // ---- the transmit queue ----

  lemma RequeueKeeps(s: Sys, wire: Record)
    requires Inv(s) && wire.Data? && Released(wire, s.sealed, s.sent)
    ensures Inv(DoRequeue(s, wire))
  {
    var t := DoRequeue(s, wire);
    forall r | r in s.txq ensures r in t.txq { }
  }

  lemma TransmitKeeps(s: Sys, k: nat)
    requires Inv(s) && s.batch == [] && k <= |s.txq|
    ensures Inv(DoTransmit(s, k))
  {
    var t := DoTransmit(s, k);
    assert s.txq == t.batch + t.txq;
    forall r | r in t.batch || r in t.txq ensures r in s.txq { }
  }

  lemma MarkSentKeeps(s: Sys, now: int)
    requires Inv(s)
    ensures Inv(DoMarkSent(s, now))
  {
    MarkedHalf(s.half.unacked, s.batch, now, s.base, s.sent, s.sealed, s.inbox);
  }

  lemma MarkedHalf(u: Unacked, batch: seq<Record>, now: int, base: nat, sent: seq<Bytes>, sealed: map<nat, Record>,
                   inbox: Delivery.Inbox)
    requires Retained(u, base, sent, sealed) && Budgeted(u) && NoReneging(u, inbox)
    ensures var v := MarkTransmitted(u, batch, now);
            && Retained(v, base, sent, sealed) && Budgeted(v) && NoReneging(v, inbox)
            && v.Keys == u.Keys && (v == map[] <==> u == map[])
            && (forall n | n in v :: v[n].wire == u[n].wire && (v[n].queued ==> u[n].queued))
            && (forall n | n in v && v[n].wire in batch :: !v[n].queued)
  {
    var v := MarkTransmitted(u, batch, now);
    assert v.Keys == u.Keys;
    forall n | n in v && v[n].wire in batch ensures !v[n].queued {
      var i :| 0 <= i < |batch| && batch[i] == u[n].wire;
      assert Carries(batch, n);
    }
  }

  // ---- feedback at the sending end ----

  /** A genuine cumulative acknowledgement lies within what was filed, so the map stays the contiguous
      range above it and the watermark stays exact. */
  lemma AckedHalf(h: Half, sendSeq: nat, ack: nat, now: int, base: nat, sent: seq<Bytes>, sealed: map<nat, Record>)
    requires Retained(h.unacked, base, sent, sealed) && ExactWatermark(h.unacked, h.lowest, base)
    requires !Ignored(h, sendSeq, ack) && ack <= |sent|
    ensures var g := AfterAck(h, sendSeq, ack, now);
            && base < ack
            && g.unacked == Above(h.unacked, ack + 1)
            && Retained(g.unacked, ack, sent, sealed)
            && ExactWatermark(g.unacked, g.lowest, ack)
  {
    var left := Above(h.unacked, ack + 1);
    if left != map[] {
      var n :| n in left;
      assert ack + 1 in left;
      assert IsMin(left.Keys, ack + 1);
    }
  }

  lemma AckedFlow(h: Half, sendSeq: nat, ack: nat, now: int, wide: bool)
    requires Tuned(h.flow, h.est, wide)
    ensures var g := AfterAck(h, sendSeq, ack, now); Tuned(g.flow, g.est, wide)
  {
    if !Ignored(h, sendSeq, ack) {
      var sample := SampleOf(h.unacked, ack, now);
      Rtt.SampledSound(h.est, sample);
      var seen := ObserveRTT(h.flow, sample);
      var est := Rtt.Sampled(h.est, sample);
      AfterSound(h.flow, Sampled(sample));
      AfterSound(seen, Undone);
      var undone := UndoneBelow(h.unacked, ack + 1, SRTT(est), now, seen);
      AfterSound(undone, Acked(|GoneBelow(h.unacked, ack + 1)|));
    }
  }

  lemma ApplyAckKeeps(s: Sys, ack: nat, now: int)
    requires Inv(s) && (ack in s.acks || exists fb | fb in s.back :: fb.ack == ack)
    ensures Inv(DoApplyAck(s, ack, now))
  {
    assert ack <= s.inbox.delivered;
    AckedFlow(s.half, s.sendSeq, ack, now, s.wide);
    if !Ignored(s.half, s.sendSeq, ack) {
      AckedHalf(s.half, s.sendSeq, ack, now, s.base, s.sent, s.sealed);
    }
  }

  /** Scheduling frames again within their budget changes nothing else about them. */
  lemma RepairedHalf(u: Unacked, picks: seq<nat>, now: int, base: nat, sent: seq<Bytes>, sealed: map<nat, Record>,
                     inbox: Delivery.Inbox)
    requires Retained(u, base, sent, sealed) && Budgeted(u) && NoReneging(u, inbox)
    requires forall n | n in picks :: n in u && u[n].retries < MAX_RETRIES
    ensures var v := RepairAll(u, picks, now);
            && Retained(v, base, sent, sealed) && Budgeted(v) && NoReneging(v, inbox)
            && v.Keys == u.Keys && (v == map[] <==> u == map[])
            && forall n | n in v :: v[n].wire == u[n].wire && v[n].queued == u[n].queued
  {
    var v := RepairAll(u, picks, now);
    assert v.Keys == u.Keys;
    forall n | n in v ensures WithinBudget(v[n]) {
      assert WithinBudget(u[n]);
    }
  }

  lemma MarkedRetained(u: Unacked, fb: Feedback, base: nat, sent: seq<Bytes>, sealed: map<nat, Record>,
                       inbox: Delivery.Inbox)
    requires Retained(u, base, sent, sealed) && Budgeted(u) && NoReneging(u, inbox)
    requires True(fb.ack, fb.data, inbox, sent)
    ensures var v := Marked(u, fb.ack, Sack.Words(fb.data));
            && Retained(v, base, sent, sealed) && Budgeted(v) && NoReneging(v, inbox)
            && v.Keys == u.Keys && (v == map[] <==> u == map[])
            && forall n | n in v :: v[n].wire == u[n].wire && v[n].queued == u[n].queued
  {
    var v := Marked(u, fb.ack, Sack.Words(fb.data));
    assert v.Keys == u.Keys;
    forall n | n in v ensures WithinBudget(v[n]) {
      assert WithinBudget(u[n]);
    }
  }

  lemma ApplySackKeeps(s: Sys, fb: Feedback, rtt: int, now: int)
    requires Inv(s) && fb in s.back && s.sendSeq > 0
    ensures Inv(DoApplySack(s, fb, rtt, now))
  {
    if Accepts(s.half.flow, fb, s.sendSeq - 1) {
      var u, words := s.half.unacked, Sack.Words(fb.data);
      assert True(fb.ack, fb.data, s.inbox, s.sent);
      MarkedRetained(u, fb, s.base, s.sent, s.sealed, s.inbox);
      RepairedHalf(Marked(u, fb.ack, words), FastPicks(u, fb.ack, words, s.sendSeq - 1, rtt, now), now,
                   s.base, s.sent, s.sealed, s.inbox);
    }
  }

  lemma TimeoutKeeps(s: Sys, now: int, rtt: int, bdp: nat)
    requires Inv(s)
    ensures Inv(DoTimeout(s, now, rtt, bdp))
  {
    if Abandons(s.half.unacked, now) {
      HaltKeeps(s);
    } else {
      var u := s.half.unacked;
      var picks := RetryPicks(u, now);
      forall n | n in picks ensures n in u && u[n].retries < MAX_RETRIES {
        assert n in DueSet(u, now);
      }
      RepairedHalf(u, picks, now, s.base, s.sent, s.sealed, s.inbox);
      RetriedFlow(s.half, now, rtt, bdp, s.wide);
    }
  }

  lemma RetriedFlow(h: Half, now: int, rtt: int, bdp: nat, wide: bool)
    requires Tuned(h.flow, h.est, wide)
    ensures var g := AfterRetry(h, now, rtt, bdp); Tuned(g.flow, g.est, wide)
  {
    var probed := h.flow.(lastProbe := now);
    LossBounds(h.flow, now, rtt, true, bdp);
    LossBounds(probed, now, rtt, true, bdp);
  }

  // ---- the receiving end ----

  lemma ArriveKeeps(s: Sys, wire: Record)
    requires Inv(s) && wire in s.net
    ensures Inv(DoArrive(s, wire))
  {
    assert Released(wire, s.sealed, s.sent);
  }

  lemma RefusePathKeeps(s: Sys, wire: Record)
    requires Inv(s) && wire in s.busy
    ensures Inv(DoRefusePath(s, wire))
  {
  }

  /** The receiver never gives back what it has. */
  ghost predicate Forward(inbox: Delivery.Inbox, inbox': Delivery.Inbox) {
    && inbox.delivered <= inbox'.delivered
    && forall n: nat | Holds(inbox, n) :: Holds(inbox', n)
  }

  lemma ForwardKeeps(s: Sys, inbox: Delivery.Inbox)
    requires Inv(s) && Forward(s.inbox, inbox)
    ensures Truthful(s.acks, s.drafts, s.back, s.backNo, inbox, s.sent)
    ensures NoReneging(s.half.unacked, inbox)
    ensures Replayed(s.filter, s.sealed, s.busy, s.refused, inbox)
  {
    forall d | d in s.drafts ensures True(d.ack, d.data, inbox, s.sent) {
      assert True(d.ack, d.data, s.inbox, s.sent);
    }
    forall fb | fb in s.back ensures True(fb.ack, fb.data, inbox, s.sent) {
      assert True(fb.ack, fb.data, s.inbox, s.sent);
    }
  }

  /** Offering a genuine payload keeps the buffer genuine and, if it is accepted, held. */
  lemma OfferedInbox(s: Sys, n: nat, payload: Bytes)
    requires Inv(s) && 0 < n <= |s.sent| && payload == s.sent[n - 1]
    ensures var o := Delivery.Offer(s.inbox, n, payload);
            && Forward(s.inbox, o.inbox)
            && Buffered(o.inbox, s.sent, s.base, s.wide)
            && Streamed(s.writer, o.inbox, s.out, s.sent)
            && (o.ok ==> Holds(o.inbox, n))
  {
  }

  lemma OfferDataKeeps(s: Sys, wire: Record)
    requires Inv(s) && wire in s.busy && wire.Data?
    ensures Inv(DoOffer(s, wire))
  {
    assert Released(wire, s.sealed, s.sent);
    OfferedInbox(s, wire.seqNo, wire.payload);
    ForwardKeeps(s, Delivery.Offer(s.inbox, wire.seqNo, wire.payload).inbox);
  }

  lemma OfferRecoveredKeeps(s: Sys, n: nat)
    requires Inv(s) && 0 < n <= |s.sent|
    ensures Inv(DoOfferRecovered(s, n))
  {
    OfferedInbox(s, n, s.sent[n - 1]);
    ForwardKeeps(s, Delivery.Offer(s.inbox, n, s.sent[n - 1]).inbox);
  }

  lemma RollbackKeeps(s: Sys, wire: Record)
    requires Inv(s) && wire in s.refused
    ensures Inv(DoRollback(s, wire))
  {
    assert Released(wire, s.sealed, s.sent);
    forall r | r in s.busy || r in s.refused - {wire} ensures r.packetNo != wire.packetNo {
      assert Released(r, s.sealed, s.sent);
    }
  }

  lemma WriteBeginKeeps(s: Sys)
    requires Inv(s) && s.writer == Idle && Delivery.NextPayload(s.inbox).Some?
    ensures Inv(DoWriteBegin(s))
  {
  }

  lemma WriteDoneKeeps(s: Sys)
    requires Inv(s) && s.writer.Writing?
    ensures Inv(DoWriteDone(s))
  {
    var n := s.writer.n;
    FlattenSnoc(s.sent[..n - 1], s.sent[n - 1]);
    assert s.sent[..n - 1] + [s.sent[n - 1]] == s.sent[..n];
  }

  lemma WriteFailKeeps(s: Sys, k: nat)
    requires Inv(s) && s.writer.Writing? && k <= |s.writer.payload|
    ensures Inv(DoWriteFail(s, k))
  {
  }

  lemma CompleteKeeps(s: Sys)
    requires Inv(s) && s.writer.Written?
    ensures Inv(DoComplete(s))
  {
    Delivery.CompleteValid(s.inbox);
    ForwardKeeps(s, Delivery.Complete(s.inbox, s.writer.n));
  }

  lemma CloseKeeps(s: Sys)
    requires Inv(s)
    ensures Inv(DoClose(s))
  {
    ForwardKeeps(s, Delivery.Close(s.inbox));
  }

  lemma EmitAckKeeps(s: Sys)
    requires Inv(s)
    ensures Inv(DoEmitAck(s))
  {
  }

  /** A snapshot reports exactly what is buffered, so its payload is true when it is drafted. */
  lemma SnapshotTrue(inbox: Delivery.Inbox, words: seq<Bits.Word>, credit: nat, sent: seq<Bytes>, base: nat, wide: bool)
    requires Buffered(inbox, sent, base, wide)
    requires credit < 65536 && |words| == 64 && Delivery.Snapshots(inbox, words, credit)
    ensures True(inbox.delivered, Sack.Encode(credit, words, MaxWords(wide)), inbox, sent)
  {
    Sack.SnapshotRoundTrip(inbox, words, credit, MaxWords(wide));
    var ack, data := inbox.delivered, Sack.Encode(credit, words, MaxWords(wide));
    forall n: nat | Sack.Reports(ack, Sack.Words(data), n) ensures n <= |sent| && Holds(inbox, n) {
      assert Sack.Claims(ack, data, n);
    }
  }

  lemma SnapshotKeeps(s: Sys, words: seq<Bits.Word>, credit: nat)
    requires Inv(s) && credit < 65536 && |words| == 64 && Delivery.Snapshots(s.inbox, words, credit)
    ensures Inv(DoSnapshot(s, words, credit))
  {
    SnapshotTrue(s.inbox, words, credit, s.sent, s.base, s.wide);
  }

  lemma NumberDraftKeeps(s: Sys, draft: Draft)
    requires Inv(s) && draft in s.drafts
    ensures Inv(DoNumberDraft(s, draft))
  {
    assert True(draft.ack, draft.data, s.inbox, s.sent);
  }

  // ---- every step, every run ----

  predicate IsPump(a: Action) {
    a.Read? || a.Flush? || a.Rest? || a.Chunk? || a.Admit? || a.Number? || a.Seal? || a.File? || a.Submit? || a.Halt?
  }

  predicate IsRepair(a: Action) {
    a.Requeue? || a.Transmit? || a.MarkSent? || a.SealOther? || a.ApplyAck? || a.ApplySack? || a.Timeout?
  }

  predicate IsIntake(a: Action) {
    a.Arrive? || a.RefusePath? || a.OfferData? || a.Rollback? || a.OfferRecovered?
  }

  lemma PumpStepKeeps(s: Sys, a: Action)
    requires Inv(s) && Enabled(s, a) && IsPump(a)
    ensures Inv(Do(s, a))
  {
    match a
    case Read(bytes) => ReadKeeps(s, bytes);
    case Flush => FlushKeeps(s);
    case Rest => RestKeeps(s);
    case Chunk(cap) => ChunkKeeps(s, cap);
    case Admit => AdmitKeeps(s);
    case Number => NumberKeeps(s);
    case Seal => SealKeeps(s);
    case File(now) => FileKeeps(s, now);
    case Submit => SubmitKeeps(s);
    case Halt => HaltKeeps(s);
  }

  lemma RepairStepKeeps(s: Sys, a: Action)
    requires Inv(s) && Enabled(s, a) && IsRepair(a)
    ensures Inv(Do(s, a))
  {
    match a
    case Requeue(wire) => RequeueKeeps(s, wire);
    case Transmit(k) => TransmitKeeps(s, k);
    case MarkSent(now) => MarkSentKeeps(s, now);
    case SealOther => SealOtherKeeps(s);
    case ApplyAck(ack, now) => ApplyAckKeeps(s, ack, now);
    case ApplySack(fb, rtt, now) => ApplySackKeeps(s, fb, rtt, now);
    case Timeout(now, rtt, bdp) => TimeoutKeeps(s, now, rtt, bdp);
  }

  lemma IntakeStepKeeps(s: Sys, a: Action)
    requires Inv(s) && Enabled(s, a) && IsIntake(a)
    ensures Inv(Do(s, a))
  {
    match a
    case Arrive(wire) => ArriveKeeps(s, wire);
    case RefusePath(wire) => RefusePathKeeps(s, wire);
    case OfferData(wire) => OfferDataKeeps(s, wire);
    case Rollback(wire) => RollbackKeeps(s, wire);
    case OfferRecovered(n) => OfferRecoveredKeeps(s, n);
  }

  lemma DeliveryStepKeeps(s: Sys, a: Action)
    requires Inv(s) && Enabled(s, a) && !IsPump(a) && !IsRepair(a) && !IsIntake(a)
    ensures Inv(Do(s, a))
  {
    match a
    case WriteBegin => WriteBeginKeeps(s);
    case WriteDone => WriteDoneKeeps(s);
    case WriteFail(k) => WriteFailKeeps(s, k);
    case Complete => CompleteKeeps(s);
    case Close => CloseKeeps(s);
    case EmitAck => EmitAckKeeps(s);
    case Snapshot(words, credit) => SnapshotKeeps(s, words, credit);
    case NumberDraft(draft) => NumberDraftKeeps(s, draft);
  }

  /** Every step of either end or the network keeps the invariant. */
  lemma StepKeeps(s: Sys, a: Action)
    requires Inv(s) && Enabled(s, a)
    ensures Inv(Do(s, a))
  {
    if IsPump(a) {
      PumpStepKeeps(s, a);
    } else if IsRepair(a) {
      RepairStepKeeps(s, a);
    } else if IsIntake(a) {
      IntakeStepKeeps(s, a);
    } else {
      DeliveryStepKeeps(s, a);
    }
  }
}
