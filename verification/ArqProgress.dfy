/** What the session does next, and when: every operation acts whenever it should, in every reachable state of every
    run. */
module ArqProgress {

  import opened Common
  import opened SendFlow
  import opened Outstanding
  import opened OutstandingMeaning
  import opened Arq
  import opened ArqInvariant
  import opened ArqTheorems
  import Rtt = RttEstimator
  import Delivery

  // ---- ordered hand-over ----

  /** Whenever the next record in order is buffered and the writer is idle, the hand-over takes that record, and no
      other; writing it out and booking it are then possible in turn and deliver exactly one more record. */
  lemma HandsOverNext(s: Sys)
    requires Reachable(s) && !s.inbox.closed && s.writer == Idle && s.inbox.delivered + 1 in s.inbox.pending
    ensures s.inbox.delivered < |s.sent|
    ensures Enabled(s, WriteBegin)
    ensures var next := s.inbox.delivered + 1;
            var begun := Do(s, WriteBegin);
            && begun.writer == Writing(next, s.sent[next - 1])
            && Enabled(begun, WriteDone) && Do(begun, WriteDone).writer == Written(next)
            && Do(begun, WriteDone).writes == s.writes + [s.sent[next - 1]]
            && Enabled(Do(begun, WriteDone), Complete)
            && var done := Do(Do(begun, WriteDone), Complete);
               done.writer == Idle && done.inbox.delivered == next && done.inbox.pending == s.inbox.pending - {next}
  {
    BufferedIsFiled(s, s.inbox.delivered + 1);
  }

  lemma BufferedIsFiled(s: Sys, n: nat)
    requires Reachable(s) && n in s.inbox.pending
    ensures 0 < n <= |s.sent| && s.inbox.pending[n] == s.sent[n - 1]
  {
    ReachableInv(s);
  }

  /** It takes nothing when the next record is missing, the inbox is closed or a write is under way. */
  lemma HandsOverOnlyNext(s: Sys)
    ensures Enabled(s, WriteBegin)
            <==> s.writer == Idle && !s.inbox.closed && s.inbox.delivered + 1 in s.inbox.pending
  {
  }

  // ---- the send window ----

  /** A record waiting for the window goes on exactly when the frames outstanding are fewer than both the congestion
      window and the credit last advertised. */
  lemma AdmitsExactly(s: Sys)
    requires s.pump.Blocked?
    ensures Enabled(s, Admit) <==> |s.half.unacked| < s.half.flow.cwnd && |s.half.unacked| < s.half.flow.credit
  {
    WindowMeaning(s.half.flow, |s.half.unacked|);
  }

  // ---- round-trip samples ----

  /** What a step leaves of a frame that has been sent: it stays so, and remembers when. */
  predicate Stamped(u: Unacked, filed: nat, v: Unacked, filed': nat, n: nat) {
    && filed <= filed'
    && (n in v ==> n in u || n > filed)
    && (n in u && n in v && !u[n].queued ==> !v[n].queued && v[n].firstSent == u[n].firstSent)
  }

  lemma {:induction false} StampedOn(us: seq<Unacked>, filed: seq<nat>, n: nat, i: nat, k: nat)
    requires |us| == |filed| && i <= k < |us|
    requires forall x | 0 < x < |us| :: Stamped(us[x - 1], filed[x - 1], us[x], filed[x], n)
    requires n in us[i] && !us[i][n].queued && n <= filed[i]
    ensures filed[i] <= filed[k]
    ensures n in us[k] ==> !us[k][n].queued && us[k][n].firstSent == us[i][n].firstSent
    decreases k
  {
    if i == k {
    } else {
      StampedOn(us, filed, n, i, k - 1);
    }
  }

  /** Step j marks sequence n sent, for the first time. */
  ghost predicate FirstSent(r: Trace, n: nat, j: nat)
    requires j < |r.acts| < |r.states|
  {
    && r.acts[j].MarkSent? && n in r.states[j].half.unacked
    && r.states[j].half.unacked[n].queued && Carries(r.states[j].batch, n)
  }

  lemma FirstSentStamp(r: Trace, n: nat, j: nat)
    requires IsRun(r) && j < |r.acts| && FirstSent(r, n, j)
    ensures var u := r.states[j + 1].half.unacked;
            n in u && !u[n].queued && u[n].firstSent == r.acts[j].now && n <= |r.states[j + 1].sent|
  {
    WithinBudgetAt(r, n, j);
    assert StepAt(r, j);
    TransmittedFrame(r.states[j].half.unacked, r.states[j].batch, r.acts[j].now, n);
  }

  /** From its first sending on, a retained frame remembers the time of it. */
  lemma SentStaysSent(r: Trace, n: nat, j: nat, k: nat)
    requires IsRun(r) && j < k <= |r.acts| && FirstSent(r, n, j)
    ensures var u := r.states[k].half.unacked;
            n in u ==> !u[n].queued && u[n].firstSent == r.acts[j].now
  {
    var us := seq(|r.states|, x requires 0 <= x < |r.states| => r.states[x].half.unacked);
    var filed := seq(|r.states|, x requires 0 <= x < |r.states| => |r.states[x].sent|);
    forall x | 0 < x < |us| ensures Stamped(us[x - 1], filed[x - 1], us[x], filed[x], n) {
      RunBudget(r, n, x - 1);
    }
    FirstSentStamp(r, n, j);
    StampedOn(us, filed, n, j + 1, k);
  }

  /** The acknowledgement applied at step k, as the sender's half sees it. */
  lemma AckStep(r: Trace, k: nat)
    requires IsRun(r) && k < |r.acts| && r.acts[k].ApplyAck?
    ensures r.states[k + 1].half == AfterAck(r.states[k].half, r.states[k].sendSeq, r.acts[k].ack, r.acts[k].now)
  {
    assert StepAt(r, k);
  }

  /** Karn's rule over whole runs: acknowledging a sequence that either repair path ever rescheduled moves neither the
      timeout estimate nor the round-trip floor. */
  lemma RescheduledGivesNoSample(r: Trace, k: nat)
    requires IsRun(r) && k < |r.acts| && r.acts[k].ApplyAck? && Repairs(r, r.acts[k].ack, k) > 0
    ensures r.states[k + 1].half.est == r.states[k].half.est
    ensures r.states[k + 1].half.flow.minRTT == r.states[k].half.flow.minRTT
  {
    var h, ack := r.states[k].half, r.acts[k].ack;
    RepairBudget(r, ack, k);
    AckStep(r, k);
    if ack < r.states[k].sendSeq && h.unacked != map[] && ack >= h.lowest {
      AckedSample(h, r.states[k].sendSeq, ack, r.acts[k].now);
    }
  }

  /** And acknowledging a retained one that was never rescheduled, first sent at step j, gives both exactly the time
      from then to now. */
  lemma SentOnceGivesItsSample(r: Trace, j: nat, k: nat)
    requires IsRun(r) && j < k < |r.acts| && r.acts[k].ApplyAck?
    requires Repairs(r, r.acts[k].ack, k) == 0 && FirstSent(r, r.acts[k].ack, j)
    requires r.acts[k].ack in r.states[k].half.unacked
    ensures var sample := r.acts[k].now - r.acts[j].now;
            && r.states[k + 1].half.est == Rtt.Sampled(r.states[k].half.est, sample)
            && r.states[k + 1].half.flow.minRTT == ObserveRTT(r.states[k].half.flow, sample).minRTT
  {
    SentOnceAt(r, j, k, r.acts[k].ack);
    RetainedIsCurrent(r, k, r.acts[k].ack);
    AckStep(r, k);
    AckedSample(r.states[k].half, r.states[k].sendSeq, r.acts[k].ack, r.acts[k].now);
  }

  lemma SentOnceAt(r: Trace, j: nat, k: nat, n: nat)
    requires IsRun(r) && j < k <= |r.acts| && Repairs(r, n, k) == 0 && FirstSent(r, n, j)
    requires n in r.states[k].half.unacked
    ensures var p := r.states[k].half.unacked[n]; p.retries == 0 && !p.queued && p.firstSent == r.acts[j].now
  {
    RepairBudget(r, n, k);
    SentStaysSent(r, n, j, k);
  }

  lemma RetainedIsCurrent(r: Trace, k: nat, n: nat)
    requires IsRun(r) && k < |r.states| && n in r.states[k].half.unacked
    ensures n < r.states[k].sendSeq && n >= r.states[k].half.lowest && r.states[k].half.unacked != map[]
  {
    RunInv(r, k);
  }

  // ---- timeouts ----

  /** A frame past its own timeout, neither marked nor queued, is rescheduled by the next retry pass, unless 64 older
      ones are or the session is given up, which takes a frame past its timeout with all 15 retries used. */
  lemma OverdueIsRescheduled(s: Sys, now: int, rtt: int, bdp: nat, n: nat)
    requires n in s.half.unacked && !s.half.unacked[n].queued && !s.half.unacked[n].sacked
    requires now > s.half.unacked[n].sentTime + s.half.unacked[n].rto
    ensures var t := Do(s, Timeout(now, rtt, bdp));
            || (exists m | m in s.half.unacked :: var p := s.half.unacked[m];
                  !p.queued && !p.sacked && now > p.sentTime + p.rto && p.retries >= 15)
            || (n in t.half.unacked && Backed(s.half.unacked[n], t.half.unacked[n], now))
            || OlderRescheduled(s.half.unacked, t.half.unacked, n, 64)
  {
    if !Abandons(s.half.unacked, now) {
      RetriedFrame(s.half, now, rtt, bdp, n);
    } else {
      AbandonedExactly(s.half, now, rtt, bdp);
      var m :| m in s.half.unacked && !s.half.unacked[m].queued && !s.half.unacked[m].sacked
               && now - s.half.unacked[m].sentTime > s.half.unacked[m].rto && s.half.unacked[m].retries >= 15;
    }
  }

  /** A frame within its timeout is left alone. */
  lemma WithinTimeoutIsLeft(s: Sys, now: int, rtt: int, bdp: nat, n: nat)
    requires n in s.half.unacked && now <= s.half.unacked[n].sentTime + s.half.unacked[n].rto
    ensures var u := Do(s, Timeout(now, rtt, bdp)).half.unacked; n in u && u[n] == s.half.unacked[n]
  {
    if !Abandons(s.half.unacked, now) {
      RetriedFrame(s.half, now, rtt, bdp, n);
    }
  }

  // ---- feedback ----

  lemma FeedbackStep(s: Sys, a: Action)
    requires Enabled(s, a)
    ensures var before, after := s.half.flow.feedbackNo, Do(s, a).half.flow.feedbackNo;
            if a.ApplySack? && Accepts(s.half.flow, a.fb, s.sendSeq - 1) then after == a.fb.packetNo > before
            else after == before
  {
    if !TouchesFrames(a) {
      QuietStep(s, a);
    } else if a.ApplySack? {
      SackedWindow(s.half, a.fb, s.sendSeq - 1, a.rtt, a.now);
    } else if a.ApplyAck? {
      AckedFeedbackNo(s.half, s.sendSeq, a.ack, a.now);
    } else if a.Timeout? {
      RetriedFeedbackNo(s.half, a.now, a.rtt, a.bdp);
    }
  }

  lemma AckedFeedbackNo(h: Half, sendSeq: nat, ack: nat, now: int)
    ensures AfterAck(h, sendSeq, ack, now).flow.feedbackNo == h.flow.feedbackNo
  {
  }

  lemma RetriedFeedbackNo(h: Half, now: int, rtt: int, bdp: nat)
    ensures AfterRetry(h, now, rtt, bdp).flow.feedbackNo == h.flow.feedbackNo
  {
  }

  /** Step k applies feedback and accepts it. */
  ghost predicate AcceptsAt(r: Trace, k: nat)
    requires k < |r.acts| < |r.states|
  {
    r.acts[k].ApplySack? && r.states[k].sendSeq > 0
    && Accepts(r.states[k].half.flow, r.acts[k].fb, r.states[k].sendSeq - 1)
  }

  lemma {:induction false} FeedbackSince(r: Trace, i: nat, k: nat)
    requires IsRun(r) && i < k <= |r.acts| && AcceptsAt(r, i)
    ensures r.states[k].half.flow.feedbackNo >= r.acts[i].fb.packetNo
    decreases k
  {
    assert StepAt(r, k - 1);
    FeedbackStep(r.states[k - 1], r.acts[k - 1]);
    if i < k - 1 {
      FeedbackSince(r, i, k - 1);
    }
  }

  /** Over a run, accepted feedback carries strictly rising packet numbers: nothing stale or repeated is ever applied. */
  lemma FeedbackRises(r: Trace, i: nat, k: nat)
    requires IsRun(r) && i < k < |r.acts| && AcceptsAt(r, i) && AcceptsAt(r, k)
    ensures r.acts[i].fb.packetNo < r.acts[k].fb.packetNo
  {
    FeedbackSince(r, i, k);
    assert StepAt(r, k);
    FeedbackStep(r.states[k], r.acts[k]);
  }

  // ---- a record gets through ----

  /** An admitted record is numbered, sealed and filed by steps that are possible in turn, under the next sequence and
      packet numbers, with its own payload. */
  lemma AdmittedIsFiled(s: Sys, now: int)
    requires Inv(s) && s.pump.Admitted?
    ensures Enabled(s, Number) && Enabled(Do(s, Number), Seal) && Enabled(Do(Do(s, Number), Seal), File(now))
    ensures var wire := Data(s.nextNo, s.sendSeq, s.pump.chunk);
            var filed := Do(Do(Do(s, Number), Seal), File(now));
            && filed.pump == Filed(wire, s.pump.rest)
            && filed.sent == s.sent + [s.pump.chunk]
            && s.sendSeq in filed.half.unacked && filed.half.unacked[s.sendSeq].wire == wire
  {
  }

  /** A filed record is queued and, once the queue ahead of it has gone out, put on the wire. */
  lemma FiledIsSent(s: Sys)
    requires s.pump.Filed? && s.txq == [] && s.batch == []
    ensures Enabled(s, Submit) && Enabled(Do(s, Submit), Transmit(1))
    ensures var out := Do(Do(s, Submit), Transmit(1));
            out.net == s.net + {s.pump.wire} && out.batch == [s.pump.wire] && out.pump == Flushing(s.pump.rest)
  {
    assert s.txq + [s.pump.wire] == [s.pump.wire];
    assert [s.pump.wire][..1] == [s.pump.wire];
  }

  /** A data record on the wire whose number is new to the window is let in. */
  lemma ArrivalIsAccepted(s: Sys, wire: Record)
    requires wire in s.net && wire.Data?
    requires wire.packetNo != 0 && wire.packetNo + 4096 > s.filter.high && wire.packetNo !in s.filter.accepted
    ensures Enabled(s, Arrive(wire))
    ensures var t := Do(s, Arrive(wire));
            && t.filter.accepted == s.filter.accepted + {wire.packetNo} && t.busy == s.busy + {wire}
            && t.inbox == s.inbox && t.refused == s.refused
  {
  }

  /** A record let in by an open inbox is then held: delivered before, or buffered with the payload filed for it. */
  lemma AcceptedIsHeld(s: Sys, wire: Record)
    requires Reachable(s) && wire in s.busy && !s.inbox.closed
    ensures Enabled(s, OfferData(wire)) && 0 < wire.seqNo <= |s.sent|
    ensures var t := Do(s, OfferData(wire));
            && wire !in t.busy && t.refused == s.refused && t.inbox.delivered == s.inbox.delivered
            && (|| wire.seqNo <= s.inbox.delivered
                || (wire.seqNo in t.inbox.pending && t.inbox.pending[wire.seqNo] == s.sent[wire.seqNo - 1]))
  {
    ReachableInv(s);
    assert wire.Data?;
    AdmissionNeverRefuses(s, wire);
    assert Released(wire, s.sealed, s.sent);
  }

  /** A refused record's number is free again once rolled back. */
  lemma RolledBackIsFree(s: Sys, wire: Record)
    requires wire in s.refused
    ensures Enabled(s, Rollback(wire))
    ensures var t := Do(s, Rollback(wire));
            wire.packetNo !in t.filter.accepted && t.filter.high == s.filter.high && wire !in t.refused
  {
  }

  /** What has been delivered can be acknowledged and is then released by the sender, all of it and nothing else. */
  lemma DeliveredIsReleased(s: Sys, now: int)
    requires Reachable(s)
    ensures Enabled(s, EmitAck) && Enabled(Do(s, EmitAck), ApplyAck(s.inbox.delivered, now))
    ensures var t := Do(Do(s, EmitAck), ApplyAck(s.inbox.delivered, now));
            forall n :: n in t.half.unacked <==> n in s.half.unacked && n > s.inbox.delivered
  {
    ReachableInv(s);
    ReleasedBy(s.half, s.sendSeq, s.inbox.delivered, now, s.base, |s.sent|);
  }

  lemma ReleasedBy(h: Half, sendSeq: nat, ack: nat, now: int, base: nat, filed: nat)
    requires base <= ack <= filed < sendSeq
    requires forall n: nat :: n in h.unacked <==> base < n <= filed
    requires h.unacked != map[] ==> h.lowest == base + 1
    ensures forall n :: n in AfterAck(h, sendSeq, ack, now).unacked <==> n in h.unacked && n > ack
  {
    AckedFrames(h, sendSeq, ack, now);
  }
}
