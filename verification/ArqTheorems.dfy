/** What holds in every reachable state of every run of the session, however the network loses,
    duplicates, delays and reorders. */
module ArqTheorems {

  import opened Common
  import opened SendFlow
  import opened Outstanding
  import opened Arq
  import opened ArqInvariant
  import Rtt = RttEstimator
  import Sack
  import Bits
  import Delivery
  import Replay

  datatype Trace = Trace(states: seq<Sys>, acts: seq<Action>)

  ghost predicate IsRun(r: Trace) {
    && |r.states| == |r.acts| + 1
    && Init(r.states[0])
    && forall i | 0 <= i < |r.acts| :: StepAt(r, i)
  }

  /** Action i leads from state i to the next. */
  ghost predicate StepAt(r: Trace, i: nat)
    requires i < |r.acts| && |r.states| == |r.acts| + 1
  {
    Enabled(r.states[i], r.acts[i]) && r.states[i + 1] == Do(r.states[i], r.acts[i])
  }

  ghost predicate Reachable(s: Sys) {
    exists r: Trace :: IsRun(r) && s == r.states[|r.acts|]
  }

  lemma {:induction false} RunInv(r: Trace, k: nat)
    requires IsRun(r) && k < |r.states|
    ensures Inv(r.states[k])
  {
    if k == 0 {
      InitInv(r.states[0]);
    } else {
      RunInv(r, k - 1);
      assert StepAt(r, k - 1);
      StepKeeps(r.states[k - 1], r.acts[k - 1]);
    }
  }

  lemma ReachableInv(s: Sys)
    requires Reachable(s)
    ensures Inv(s)
  {
    var r: Trace :| IsRun(r) && s == r.states[|r.acts|];
    RunInv(r, |r.acts|);
  }

  /** End-to-end stream safety. The bytes written to the receiving application are always a prefix of the
      bytes read from the sending one; record by record, the writes are a prefix of the filed payloads, and
      between writes exactly those of sequences 1..delivered, in order and each once; and what was read is
      what was filed followed by what the pump still holds. */
  lemma StreamSafety(s: Sys)
    requires Reachable(s)
    ensures s.out <= s.taken
    ensures s.inbox.delivered <= |s.sent|
    ensures s.writer == Idle ==> s.writes == s.sent[..s.inbox.delivered]
    ensures s.writer == Idle ==> s.out == Flatten(s.sent[..s.inbox.delivered])
    ensures s.writes <= s.sent
    ensures s.out == Flatten(s.writes) + if s.writer.Failed? then s.writer.partial else []
    ensures s.taken == Flatten(s.sent) + Hand(s.pump)
  {
    ReachableInv(s);
    var d := s.inbox.delivered;
    FlattenSplit(s.sent, d);
    if d < |s.sent| {
      FlattenSplit(s.sent, d + 1);
      FlattenSnoc(s.sent[..d], s.sent[d]);
      assert s.sent[..d] + [s.sent[d]] == s.sent[..d + 1];
    }
  }

  /** Flow control: every data record that can still arrive is at most `limit` above the delivered prefix
      and finds room, so an open receiver refuses no genuine record. */
  lemma AdmissionNeverRefuses(s: Sys, r: Record)
    requires Reachable(s) && r.Data? && (r in s.net || r in s.busy) && !s.inbox.closed
    ensures r.seqNo <= s.inbox.delivered + s.inbox.limit
    ensures Delivery.Offer(s.inbox, r.seqNo, r.payload).ok
  {
    ReachableInv(s);
    assert Released(r, s.sealed, s.sent);
    Delivery.RefusedIff(s.inbox, r.seqNo, r.payload);
  }

  /** Retention: a filed sequence above the receiver's delivered prefix is still held by the sender, in
      the record with its payload. The unacknowledged map is a contiguous range with an exact watermark. */
  lemma SenderRetains(s: Sys, n: nat)
    requires Reachable(s) && s.inbox.delivered < n <= |s.sent|
    ensures n in s.half.unacked
    ensures var wire := s.half.unacked[n].wire; wire.Data? && wire.seqNo == n && wire.payload == s.sent[n - 1]
    ensures s.half.lowest <= n && s.half.lowest in s.half.unacked
  {
    ReachableInv(s);
    assert Released(s.half.unacked[n].wire, s.sealed, s.sent);
  }

  /** No reneging: a frame the sender skips because it was selectively acknowledged is buffered or
      delivered at the receiver, until the session closes. */
  lemma NeverReneges(s: Sys, n: nat)
    requires Reachable(s) && n in s.half.unacked && s.half.unacked[n].sacked && !s.inbox.closed
    ensures n <= s.inbox.delivered || n in s.inbox.pending
  {
    ReachableInv(s);
  }

  /** Nothing is stranded: until the session closes, a filed sequence the receiver does not have is held
      by the sender unmarked, and is either subject to timeout repair or still travelling through the
      transmit queue. */
  lemma NothingStranded(s: Sys, n: nat)
    requires Reachable(s) && 0 < n <= |s.sent|
    requires !s.inbox.closed && !s.pump.Halted?
    requires !(n <= s.inbox.delivered || n in s.inbox.pending)
    ensures n in s.half.unacked
    ensures var p := s.half.unacked[n];
            && !p.sacked
            && (Outstanding.Waiting(p) || p.wire in s.txq || p.wire in s.batch || (s.pump.Filed? && s.pump.wire == p.wire))
  {
    ReachableInv(s);
    SenderRetains(s, n);
  }

  /** Replay drops lose nothing: once no record is being processed, every data record whose packet number
      the filter holds as accepted has its sequence buffered or delivered, because refused data is rolled
      back. */
  lemma ReplayLosesNothing(s: Sys, no: nat)
    requires Reachable(s) && !s.inbox.closed
    requires no in s.filter.accepted
    ensures no in s.sealed
    ensures s.sealed[no].Data? ==>
              || s.sealed[no] in s.busy || s.sealed[no] in s.refused
              || s.sealed[no].seqNo <= s.inbox.delivered || s.sealed[no].seqNo in s.inbox.pending
  {
    ReachableInv(s);
  }

  /** Fresh genuine feedback is never rejected once something was sent. */
  lemma FreshFeedbackAccepted(s: Sys, fb: Feedback)
    requires Reachable(s) && fb in s.back
    requires s.sendSeq > 1 && fb.packetNo > s.half.flow.feedbackNo
    ensures Accepts(s.half.flow, fb, s.sendSeq - 1)
  {
    ReachableInv(s);
    assert True(fb.ack, fb.data, s.inbox, s.sent);
  }

  /** The window in force never exceeds what the receiver can buffer. */
  lemma WindowWithinLimit(s: Sys)
    requires Reachable(s)
    ensures Window(s.half.flow) <= s.half.flow.cwnd <= s.half.flow.max <= s.inbox.limit
    ensures |s.half.unacked| == |s.sent| - s.base <= s.inbox.limit
  {
    ReachableInv(s);
    FlightSize(s.half.unacked.Keys, s.base, |s.sent| - s.base);
    assert |s.half.unacked| == |s.half.unacked.Keys|;
  }

  // ---- selective acknowledgement end to end ----

  /** Snapshot, encode, transmit, decode, mark: accepted feedback marks exactly the outstanding frames
      that were buffered when the snapshot was taken, and adds the advertised credit; anything else about
      the outstanding frames changes only for at most three repaired ones. */
  lemma SackRoundTrip(d: Delivery.Inbox, words: seq<Bits.Word>, credit: nat, wide: bool, h: Half, no: nat,
                      highest: nat, rtt: int, now: int, n: nat)
    requires Delivery.Valid(d) && d.limit == Ceiling(wide) && Delivery.Snapshots(d, words, credit)
    requires credit < 65536
    requires n in h.unacked
    ensures var fb := Feedback(no, d.delivered, Sack.Encode(credit, words, MaxWords(wide)));
            Accepts(h.flow, fb, highest) ==>
              var g := AfterSack(h, fb, highest, rtt, now);
              && n in g.unacked
              && g.unacked[n].sacked == (h.unacked[n].sacked || n in d.pending)
              && g.flow.credit == credit
              && g.unacked[n].wire == h.unacked[n].wire
  {
    Sack.SnapshotRoundTrip(d, words, credit, MaxWords(wide));
    Delivery.CreditFits(d);
    var fb := Feedback(no, d.delivered, Sack.Encode(credit, words, MaxWords(wide)));
    if Accepts(h.flow, fb, highest) {
      assert Sack.Claims(d.delivered, fb.data, n) <==> n in d.pending;
      var u := Marked(h.unacked, fb.ack, Sack.Words(fb.data));
      assert u[n].sacked == (h.unacked[n].sacked || n in d.pending);
    }
  }

  /** One feedback record that reports at least three sequences schedules every repairable hole, up to three; they
      are unmarked, in ascending order, and every repairable hole passed over is newer than all of them. One that
      reports fewer schedules nothing. */
  lemma FastRepairsOldest(u: Unacked, ack: nat, words: seq<Bits.Word>, highest: nat, rtt: int, now: int)
    ensures var picks := FastPicks(u, ack, words, highest, rtt, now);
            && |picks| <= 3 && Increasing(picks)
            && (forall n | n in picks :: n in u && !u[n].sacked && !Sack.Reports(ack, words, n) && !u[n].queued)
            && var holes := Holes(Marked(u, ack, words), ack, |words|, highest, rtt, now);
               && |picks| == (if ReportCount(words) >= 3 then Min(FAST_REPAIR_MAX, |holes|) else 0)
               && (picks != [] ==> forall x, y | x in picks && y !in picks && y in holes :: x < y)
  {
    LowestOfMeaning(Holes(Marked(u, ack, words), ack, |words|, highest, rtt, now), FAST_REPAIR_MAX);
  }

  // ---- the retransmission budget over whole runs ----

  /** The step schedules sequence n for another transmission. */
  ghost predicate Schedules(s: Sys, a: Action, n: nat) {
    if a.ApplySack? then
      && s.sendSeq > 0 && Accepts(s.half.flow, a.fb, s.sendSeq - 1)
      && n in FastPicks(s.half.unacked, a.fb.ack, Sack.Words(a.fb.data), s.sendSeq - 1, a.rtt, a.now)
    else
      a.Timeout? && !Abandons(s.half.unacked, a.now) && n in RetryPicks(s.half.unacked, a.now)
  }

  /** How often the first k steps scheduled n again. */
  ghost function Repairs(r: Trace, n: nat, k: nat): nat
    requires k <= |r.acts| < |r.states|
  {
    if k == 0 then 0 else Repairs(r, n, k - 1) + if Schedules(r.states[k - 1], r.acts[k - 1], n) then 1 else 0
  }

  /** One step, seen from sequence n: a frame is rescheduled only while retained, each time once and within
      its budget, each time with half as long a timeout again up to ten seconds; otherwise its timeout stays; once
      sent, its first sending is remembered; and it enters the map once, when its sequence is filed. */
  ghost predicate BudgetStep(u: Unacked, filed: nat, v: Unacked, filed': nat, n: nat, scheduled: bool) {
    && filed <= filed'
    && (n in v ==> n <= filed')
    && (scheduled ==> n in u && n in v && u[n].retries < MAX_RETRIES)
    && (scheduled ==> v[n].rto == Min(u[n].rto * 3 / 2, 10_000_000_000))
    && (n in u && n in v ==> v[n].retries == u[n].retries + (if scheduled then 1 else 0) && u[n].rto <= v[n].rto)
    && (n in u && n in v && !scheduled ==> v[n].rto == u[n].rto)
    && (n in u && n in v && !u[n].queued ==> !v[n].queued && v[n].firstSent == u[n].firstSent)
    && (n !in u && n in v ==> n > filed && v[n].retries == 0)
  }

  ghost predicate Budgets(s: Sys, t: Sys, n: nat, scheduled: bool) {
    BudgetStep(s.half.unacked, |s.sent|, t.half.unacked, |t.sent|, n, scheduled)
  }

  predicate TouchesFrames(a: Action) {
    a.ApplyAck? || a.ApplySack? || a.Timeout? || a.File? || a.MarkSent?
  }

  lemma QuietStep(s: Sys, a: Action)
    requires Enabled(s, a) && !TouchesFrames(a)
    ensures Do(s, a).half == s.half && Do(s, a).sent == s.sent
  {
  }

  lemma AckBudget(s: Sys, ack: nat, now: int, n: nat)
    requires Inv(s) && (ack in s.acks || exists fb | fb in s.back :: fb.ack == ack)
    ensures Budgets(s, DoApplyAck(s, ack, now), n, false)
  {
    if !Ignored(s.half, s.sendSeq, ack) {
      AckedHalf(s.half, s.sendSeq, ack, now, s.base, s.sent, s.sealed);
    }
  }

  lemma SackBudget(s: Sys, fb: Feedback, rtt: int, now: int, n: nat)
    requires Inv(s) && fb in s.back && s.sendSeq > 0
    ensures Budgets(s, DoApplySack(s, fb, rtt, now), n, Schedules(s, ApplySack(fb, rtt, now), n))
  {
    assert n in s.half.unacked ==> WithinBudget(s.half.unacked[n]);
    SackBudgetOn(s.half, fb, s.sendSeq - 1, rtt, now, |s.sent|, n);
  }

  lemma SackBudgetOn(h: Half, fb: Feedback, highest: nat, rtt: int, now: int, filed: nat, n: nat)
    requires n in h.unacked ==> n <= filed && WithinBudget(h.unacked[n])
    ensures BudgetStep(h.unacked, filed, AfterSack(h, fb, highest, rtt, now).unacked, filed, n,
                       Accepts(h.flow, fb, highest)
                       && n in FastPicks(h.unacked, fb.ack, Sack.Words(fb.data), highest, rtt, now))
  {
    if Accepts(h.flow, fb, highest) {
      var u, words := h.unacked, Sack.Words(fb.data);
      RepairBudgetStep(u, Marked(u, fb.ack, words), FastPicks(u, fb.ack, words, highest, rtt, now), now, filed, n);
    }
  }

  lemma TimeoutBudget(s: Sys, now: int, rtt: int, bdp: nat, n: nat)
    requires Inv(s)
    ensures Budgets(s, DoTimeout(s, now, rtt, bdp), n, Schedules(s, Timeout(now, rtt, bdp), n))
  {
    var u := s.half.unacked;
    assert n in u ==> WithinBudget(u[n]);
    if !Abandons(u, now) {
      var picks := RetryPicks(u, now);
      assert forall x | x in picks :: x in DueSet(u, now);
      RepairBudgetStep(u, u, picks, now, |s.sent|, n);
    }
  }

  /** Scheduling a list of frames, some of which feedback may just have marked. */
  lemma RepairBudgetStep(u: Unacked, marked: Unacked, picks: seq<nat>, now: int, filed: nat, n: nat)
    requires u.Keys == marked.Keys
    requires forall x | x in u :: marked[x].retries == u[x].retries && marked[x].rto == u[x].rto
    requires forall x | x in u :: marked[x].queued == u[x].queued && marked[x].firstSent == u[x].firstSent
    requires forall x | x in picks :: x in u && u[x].retries < MAX_RETRIES
    requires n in u ==> n <= filed && WithinBudget(u[n])
    ensures BudgetStep(u, filed, RepairAll(marked, picks, now), filed, n, n in picks)
  {
  }

  lemma FileBudget(s: Sys, now: int, n: nat)
    requires Inv(s) && s.pump.Sealed? && s.pump.wire.Data?
    ensures Budgets(s, DoFile(s, now), n, false)
  {
  }

  lemma MarkSentBudget(s: Sys, now: int, n: nat)
    requires Inv(s)
    ensures Budgets(s, DoMarkSent(s, now), n, false)
  {
  }

  lemma QuietBudget(s: Sys, a: Action, n: nat)
    requires Inv(s) && Enabled(s, a) && !TouchesFrames(a)
    ensures Budgets(s, Do(s, a), n, false)
  {
    QuietStep(s, a);
  }

  lemma StepBudget(s: Sys, a: Action, n: nat)
    requires Inv(s) && Enabled(s, a)
    ensures Budgets(s, Do(s, a), n, Schedules(s, a, n))
  {
    if a.ApplyAck? {
      AckBudget(s, a.ack, a.now, n);
    } else if a.ApplySack? {
      SackBudget(s, a.fb, a.rtt, a.now, n);
    } else if a.Timeout? {
      TimeoutBudget(s, a.now, a.rtt, a.bdp, n);
    } else if a.File? {
      FileBudget(s, a.now, n);
    } else if a.MarkSent? {
      MarkSentBudget(s, a.now, n);
    } else {
      QuietBudget(s, a, n);
    }
  }

  lemma RunBudget(r: Trace, n: nat, k: nat)
    requires IsRun(r) && k < |r.acts|
    ensures Budgets(r.states[k], r.states[k + 1], n, Schedules(r.states[k], r.acts[k], n))
  {
    RunInv(r, k);
    assert StepAt(r, k);
    StepBudget(r.states[k], r.acts[k], n);
  }

  /** Over a whole run, both repair paths together schedule a sequence at most 15 times after its first
      transmission, and every retained frame carries the exact count. */
  lemma {:induction false} RepairBudget(r: Trace, n: nat, k: nat)
    requires IsRun(r) && k <= |r.acts|
    ensures Repairs(r, n, k) <= MAX_RETRIES
    ensures n in r.states[k].half.unacked ==> Repairs(r, n, k) == r.states[k].half.unacked[n].retries
    ensures n > |r.states[k].sent| ==> Repairs(r, n, k) == 0
  {
    if k == 0 {
    } else {
      RepairBudget(r, n, k - 1);
      RunBudget(r, n, k - 1);
    }
  }

  /** What a step means for a timeout: it does not shrink, and a frame that left does not come back. */
  predicate Carried(u: Unacked, filed: nat, v: Unacked, filed': nat, n: nat) {
    && filed <= filed'
    && (n in v ==> n in u || n > filed)
    && (n in u && n in v ==> u[n].rto <= v[n].rto)
  }

  lemma {:induction false} CarriedOn(us: seq<Unacked>, filed: seq<nat>, n: nat, i: nat, j: nat)
    requires |us| == |filed| && i <= j < |us|
    requires forall k | 0 < k < |us| :: Carried(us[k - 1], filed[k - 1], us[k], filed[k], n)
    requires n in us[i] && n <= filed[i]
    ensures filed[i] <= filed[j] && (n in us[j] ==> us[i][n].rto <= us[j][n].rto)
    decreases j
  {
    if i < j {
      CarriedOn(us, filed, n, i, j - 1);
    }
  }

  /** Over a whole run a retained frame's timeout never shrinks and never passes ten seconds. */
  lemma TimeoutNeverShrinks(r: Trace, n: nat, i: nat, j: nat)
    requires IsRun(r) && i <= j <= |r.acts|
    requires n in r.states[i].half.unacked && n in r.states[j].half.unacked
    ensures r.states[i].half.unacked[n].rto <= r.states[j].half.unacked[n].rto <= Rtt.MAX_RTO
  {
    var us := seq(|r.states|, k requires 0 <= k < |r.states| => r.states[k].half.unacked);
    var filed := seq(|r.states|, k requires 0 <= k < |r.states| => |r.states[k].sent|);
    forall k | 0 < k < |us| ensures Carried(us[k - 1], filed[k - 1], us[k], filed[k], n) {
      RunBudget(r, n, k - 1);
    }
    WithinBudgetAt(r, n, i);
    WithinBudgetAt(r, n, j);
    CarriedOn(us, filed, n, i, j);
  }

  lemma WithinBudgetAt(r: Trace, n: nat, k: nat)
    requires IsRun(r) && k < |r.states| && n in r.states[k].half.unacked
    ensures n <= |r.states[k].sent| && WithinBudget(r.states[k].half.unacked[n])
  {
    RunInv(r, k);
  }
}
