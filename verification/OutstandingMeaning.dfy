/** What the sender's lock regions do to each frame, said on the fields of the frames and of the window, the clock and
    plain numbers. */
module OutstandingMeaning {

  import opened Common
  import opened SendFlow
  import opened Outstanding
  import Rtt = RttEstimator
  import Sack
  import Bits

  // ---- filing and sending ----

  /** A new frame is queued, unmarked, never retried, with the timeout in force. */
  lemma FiledFrame(h: Half, n: nat, wire: Record, now: int)
    ensures var g := File(h, n, wire, now);
            && n in g.unacked
            && g.unacked[n].wire == wire && g.unacked[n].queued && !g.unacked[n].sacked
            && g.unacked[n].retries == 0 && g.unacked[n].rto == h.est.rto
            && g.unacked[n].firstSent == g.unacked[n].sentTime == now
            && g.unacked.Keys == h.unacked.Keys + {n}
            && (forall k | k in h.unacked && k != n :: g.unacked[k] == h.unacked[k])
            && g.flow == h.flow && g.est == h.est
  {
  }

  /** A batch on the wire: its frames are no longer queued and count as sent now; the first time also starts their
      round-trip measurement. Nothing else changes. */
  lemma TransmittedFrame(u: Unacked, wires: seq<Record>, now: int, n: nat)
    requires n in u
    ensures var v := MarkTransmitted(u, wires, now);
            && v.Keys == u.Keys
            && ((forall i | 0 <= i < |wires| :: !(wires[i].Data? && wires[i].seqNo == n)) ==> v[n] == u[n])
            && ((exists i | 0 <= i < |wires| :: wires[i].Data? && wires[i].seqNo == n) ==>
                  && !v[n].queued && v[n].sentTime == now
                  && v[n].firstSent == (if u[n].queued then now else u[n].firstSent)
                  && v[n].wire == u[n].wire && v[n].rto == u[n].rto
                  && v[n].sacked == u[n].sacked && v[n].retries == u[n].retries)
  {
  }

  // ---- cumulative acknowledgement ----

  /** An acknowledgement of something outstanding: it removes exactly what it covers. Anything else is ignored. */
  lemma AckedFrames(h: Half, sendSeq: nat, ack: nat, now: int)
    ensures var g := AfterAck(h, sendSeq, ack, now);
            if ack >= sendSeq || h.unacked == map[] || ack < h.lowest then g == h
            else
              && (forall n :: n in g.unacked <==> n in h.unacked && n > ack)
              && (forall n | n in g.unacked :: g.unacked[n] == h.unacked[n])
  {
  }

  /** Karn's rule: a frame that was sent exactly once, and has left the queue, gives the estimator and the floor the
      one sample since it was sent; any other acknowledgement gives none. */
  lemma AckedSample(h: Half, sendSeq: nat, ack: nat, now: int)
    requires ack < sendSeq && h.unacked != map[] && ack >= h.lowest
    ensures var g := AfterAck(h, sendSeq, ack, now);
            if ack in h.unacked && h.unacked[ack].retries == 0 && !h.unacked[ack].queued then
              var sample := now - h.unacked[ack].firstSent;
              g.est == Rtt.Sampled(h.est, sample) && g.flow.minRTT == ObserveRTT(h.flow, sample).minRTT
            else
              g.est == h.est && g.flow.minRTT == h.flow.minRTT
  {
  }

  /** A frame the acknowledgement covers was retransmitted less than one smoothed round trip ago, so it was an earlier
      sending that was acknowledged. */
  ghost predicate ProvesSpurious(u: Unacked, ack: nat, srtt: int, now: int) {
    exists n | n in u && n <= ack :: u[n].retries > 0 && srtt > 0 && now - u[n].sentTime < srtt
  }

  function Covered(u: Unacked, ack: nat): set<nat> { set n | n in u && n <= ack }

  lemma SpuriousExactly(u: Unacked, ack: nat, srtt: int, now: int)
    ensures SpuriousBelow(u, ack + 1, srtt, now) <==> ProvesSpurious(u, ack, srtt, now)
    ensures GoneBelow(u, ack + 1) == Covered(u, ack)
  {
  }

  lemma OnlyFloorMoves(f: Flow, sample: int)
    ensures ObserveRTT(f, sample) == f.(minRTT := ObserveRTT(f, sample).minRTT)
  {
  }

  lemma FloorStays(f: Flow, n: nat)
    ensures Acknowledged(f, n).minRTT == f.minRTT && UndoLoss(f).minRTT == f.minRTT
  {
  }

  /** If so, the cut is undone before the window grows by what is covered; otherwise it only grows. */
  lemma AckedWindow(h: Half, sendSeq: nat, ack: nat, now: int)
    requires ack < sendSeq && h.unacked != map[] && ack >= h.lowest
    ensures var g := AfterAck(h, sendSeq, ack, now);
            var before := h.flow.(minRTT := g.flow.minRTT);
            var undo := ProvesSpurious(h.unacked, ack, if g.est.hasData then g.est.srtt else 0, now);
            g.flow == Acknowledged(if undo then UndoLoss(before) else before, |Covered(h.unacked, ack)|)
  {
    var sample := SampleOf(h.unacked, ack, now);
    var est, seen := Rtt.Sampled(h.est, sample), ObserveRTT(h.flow, sample);
    SpuriousExactly(h.unacked, ack, SRTT(est), now);
    OnlyFloorMoves(h.flow, sample);
    FloorStays(seen, |Covered(h.unacked, ack)|);
    FloorStays(UndoLoss(seen), |Covered(h.unacked, ack)|);
  }

  // ---- selective acknowledgement ----

  /** Which feedback is accepted, and what it does besides marking and repairing. */
  lemma SackedWindow(h: Half, fb: Feedback, highest: nat, rtt: int, now: int)
    ensures var g := AfterSack(h, fb, highest, rtt, now);
            var accepted := && highest != 0 && 2 <= |fb.data| <= 514 && (|fb.data| - 2) % 8 == 0
                            && fb.ack <= highest && fb.packetNo > h.flow.feedbackNo
                            && (forall n: nat | Sack.Reports(fb.ack, Sack.Words(fb.data), n) :: n <= highest);
            if accepted then
              && g.flow == h.flow.(feedbackNo := fb.packetNo, credit := Min(BytesUint16(fb.data), 4096))
              && g.est == h.est && g.lowest == h.lowest && g.unacked.Keys == h.unacked.Keys
            else g == h
  {
  }

  /** Frame by frame, what accepted feedback does: exactly the reported frames are newly marked, and a frame is either
      rescheduled or keeps its times. */
  lemma SackedFrame(h: Half, fb: Feedback, highest: nat, rtt: int, now: int, n: nat)
    requires Accepts(h.flow, fb, highest) && n in h.unacked
    ensures var v, p := AfterSack(h, fb, highest, rtt, now).unacked[n], h.unacked[n];
            && v.sacked == (p.sacked || Sack.Reports(fb.ack, Sack.Words(fb.data), n))
            && v.wire == p.wire && v.queued == p.queued && v.firstSent == p.firstSent
            && (Backed(p, v, now) || (v.retries == p.retries && v.sentTime == p.sentTime && v.rto == p.rto))
            && (n in FastPicks(h.unacked, fb.ack, Sack.Words(fb.data), highest, rtt, now) <==> v.retries != p.retries)
  {
  }

  /** A hole fast repair owes a repair: in reach of the bitmap, neither marked, reported nor queued, with retries left,
      and sent long enough ago. Long enough is 5 ms, a quarter of the round trip and, once retried, a quarter of its
      timeout. */
  predicate OwedRepair(p: Pkt, ack: nat, words: seq<Word>, highest: nat, rtt: int, now: int, n: nat) {
    && ack < n <= highest && n <= ack + 64 * |words|
    && !p.sacked && !Sack.Reports(ack, words, n) && !p.queued && p.retries < 15
    && now - p.sentTime >= 5_000_000 && now - p.sentTime >= GoDiv(rtt, 4)
    && (p.retries > 0 ==> now - p.sentTime >= GoDiv(p.rto, 4))
  }

  /** With three or more sequences reported, exactly such holes are rescheduled, unless three older ones are; with fewer,
      none. */
  lemma FastRepairsExactly(h: Half, fb: Feedback, highest: nat, rtt: int, now: int, n: nat)
    requires Accepts(h.flow, fb, highest) && n in h.unacked
    ensures var words := Sack.Words(fb.data);
            var v := AfterSack(h, fb, highest, rtt, now).unacked;
            var owed := OwedRepair(h.unacked[n], fb.ack, words, highest, rtt, now, n);
            && (v[n].retries != h.unacked[n].retries ==> owed && ReportCount(words) >= 3)
            && (owed && ReportCount(words) >= 3 && v[n].retries == h.unacked[n].retries ==>
                  OlderRescheduled(h.unacked, v, n, 3))
  {
    var words := Sack.Words(fb.data);
    var marked := Marked(h.unacked, fb.ack, words);
    var holes := Holes(marked, fb.ack, |words|, highest, rtt, now);
    var picks := FastPicks(h.unacked, fb.ack, words, highest, rtt, now);
    SackedFrame(h, fb, highest, rtt, now, n);
    LowestOfMeaning(holes, FAST_REPAIR_MAX);
    HoleIsOwed(h.unacked, fb.ack, words, highest, rtt, now, n);
    if n in holes && n !in picks && ReportCount(words) >= 3 {
      PickedEnough(holes, n, FAST_REPAIR_MAX);
      assert OlderPicks(h.unacked, RepairAll(marked, picks, now), picks, n, 3);
    }
  }

  lemma HoleIsOwed(u: Unacked, ack: nat, words: seq<Word>, highest: nat, rtt: int, now: int, n: nat)
    requires n in u
    ensures n in Holes(Marked(u, ack, words), ack, |words|, highest, rtt, now)
            <==> OwedRepair(u[n], ack, words, highest, rtt, now, n)
  {
    assert Marked(u, ack, words)[n] == if Sack.Reports(ack, words, n) then u[n].(sacked := true) else u[n];
  }

  /** How many of the first k sequences above ack are reported. */
  function ReportsAmong(ack: nat, words: seq<Word>, k: nat): nat {
    if k == 0 then 0 else ReportsAmong(ack, words, k - 1) + if Sack.Reports(ack, words, ack + k) then 1 else 0
  }

  /** The report count is the number of sequences reported. */
  lemma ReportCountMeaning(ack: nat, words: seq<Word>)
    ensures ReportCount(words) == ReportsAmong(ack, words, 64 * |words|)
  {
    ReportsBelow(ack, words, |words|, 0);
    assert words[..|words|] == words;
  }

  lemma {:induction false} ReportsBelow(ack: nat, words: seq<Word>, i: nat, j: nat)
    requires i <= |words| && j <= 64 && (i == |words| ==> j == 0)
    ensures ReportsAmong(ack, words, 64 * i + j)
            == ReportCount(words[..i]) + if j > 0 then Bits.OnesCount(words[i], j) else 0
    decreases i, j
  {
    if j > 0 {
      ReportsBelow(ack, words, i, j - 1);
      Sack.ReportsBit(ack, words, i, j - 1);
    } else if i > 0 {
      ReportsBelow(ack, words, i - 1, 64);
      assert words[..i][..i - 1] == words[..i - 1];
    }
  }

  /** A rescheduled frame: one more retry, sent now, its timeout half as long again up to 10 s. */
  predicate Backed(p: Pkt, v: Pkt, now: int) {
    v.retries == p.retries + 1 && v.sentTime == now && v.rto == Min(p.rto * 3 / 2, 10_000_000_000)
  }

  /** At least `count` frames older than n were rescheduled. */
  ghost predicate OlderRescheduled(u: Unacked, v: Unacked, n: nat, count: nat) {
    exists picks: seq<nat> :: OlderPicks(u, v, picks, n, count)
  }

  ghost predicate OlderPicks(u: Unacked, v: Unacked, picks: seq<nat>, n: nat, count: nat) {
    && Increasing(picks) && |picks| == count
    && forall m | m in picks :: m < n && m in u && m in v && v[m].retries == u[m].retries + 1
  }

  lemma PickedEnough(s: set<nat>, n: nat, count: nat)
    requires n in s && n !in LowestOf(s, count)
    ensures |LowestOf(s, count)| == count && forall m | m in LowestOf(s, count) :: m < n
  {
    var picks := LowestOf(s, count);
    LowestOfMeaning(s, count);
    var taken := Elements(picks);
    assert taken < s;
    IncreasingCardinality(picks);
    ProperSubsetSmaller(taken, s);
  }

  // ---- timeout repair ----

  /** The session is given up exactly when a frame past its own timeout, neither queued nor marked, has had its 15
      retries; then nothing changes. */
  lemma AbandonedExactly(h: Half, now: int, rtt: int, bdp: nat)
    ensures var overdue := exists n | n in h.unacked ::
              && !h.unacked[n].queued && !h.unacked[n].sacked
              && now - h.unacked[n].sentTime > h.unacked[n].rto && h.unacked[n].retries >= 15;
            Abandons(h.unacked, now) == overdue && (overdue ==> AfterRetry(h, now, rtt, bdp) == h)
  {
  }

  /** Otherwise a frame is rescheduled exactly when it is past its own timeout, neither queued nor marked, unless 64
      older ones are; and the wires returned are those of the rescheduled frames. */
  lemma RetriedFrame(h: Half, now: int, rtt: int, bdp: nat, n: nat)
    requires !Abandons(h.unacked, now) && n in h.unacked
    ensures var u, v := h.unacked, AfterRetry(h, now, rtt, bdp).unacked;
            var overdue := !u[n].queued && !u[n].sacked && now - u[n].sentTime > u[n].rto;
            && n in v
            && (n in RetryPicks(u, now) <==> v[n] != u[n])
            && (v[n] != u[n] ==> overdue && Backed(u[n], v[n], now)
                                 && v[n] == u[n].(retries := v[n].retries, sentTime := now, rto := v[n].rto))
            && (overdue && v[n] == u[n] ==> OlderRescheduled(u, v, n, 64))
  {
    var u := h.unacked;
    var due, picks := DueSet(u, now), RetryPicks(u, now);
    LowestOfMeaning(due, RETRY_BURST_MAX);
    if n in due && n !in picks {
      PickedEnough(due, n, RETRY_BURST_MAX);
      assert OlderPicks(u, RepairAll(u, picks, now), picks, n, 64);
    }
  }

  /** The window is cut, undoably, exactly when something was overdue, and the probe clock restarts exactly when a probe
      is due: the credit is zero or some frame is marked. */
  lemma RetriedWindow(h: Half, now: int, rtt: int, bdp: nat)
    requires !Abandons(h.unacked, now)
    ensures var g := AfterRetry(h, now, rtt, bdp);
            var overdue := exists n | n in h.unacked ::
              !h.unacked[n].queued && !h.unacked[n].sacked && now - h.unacked[n].sentTime > h.unacked[n].rto;
            var probing := h.flow.credit == 0 || exists n | n in h.unacked :: h.unacked[n].sacked;
            var probed := if probing then h.flow.(lastProbe := now) else h.flow;
            && g.flow == (if overdue then Loss(probed, now, rtt, true, bdp) else probed)
            && g.est == h.est && g.lowest == h.lowest
            && (ProbeInterval(h.flow, h.unacked).1 <==> probing)
  {
    var due := DueSet(h.unacked, now);
    LowestOfMeaning(due, RETRY_BURST_MAX);
    assert due == {} <==> |due| == 0;
    assert due != {} <==> exists n | n in h.unacked ::
             !h.unacked[n].queued && !h.unacked[n].sacked && now - h.unacked[n].sentTime > h.unacked[n].rto
    by {
      if due != {} {
        var n :| n in due;
        assert Expired(h.unacked[n], now);
      }
      if exists n | n in h.unacked :: Expired(h.unacked[n], now) {
        var n :| n in h.unacked && Expired(h.unacked[n], now);
        assert n in due;
      }
    }
  }

  /** A probe comes every 25 ms while a gap lies below something marked, and every 100 ms otherwise. */
  lemma ProbeMeaning(f: Flow, u: Unacked)
    ensures ProbeInterval(f, u).0
            == if (exists n | n in u :: u[n].sacked) && (exists n | n in u :: !u[n].queued && !u[n].sacked)
               then 25_000_000 else 100_000_000
  {
  }
}
