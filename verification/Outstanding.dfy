/** The sender's half of a session: the map of unacknowledged frames with its watermark, and the lock
    regions that change it: filing, cumulative acknowledgement, selective acknowledgement, timeout
    repair and the queued-to-sent transition (tunnel/client.go, tunnel/recovery.go, tunnel/transmit.go). */
module Outstanding {

  import opened Common
  import opened SendFlow
  import Rtt = RttEstimator
  import Sack
  import Bits

  type Word = Bits.Word

  const MAX_RETRIES: nat := 15
  const FAST_REPAIR_MAX: nat := 3
  const RETRY_BURST_MAX: nat := 64
  const IDLE_DELAY: int := 10 * MS

  /** A sealed record. Its packet number fixes its content; retransmissions reuse it verbatim. */
  datatype Record =
    | Data(packetNo: nat, seqNo: nat, payload: Bytes)
    | Other(packetNo: nat)

  /** A selective-acknowledgement record. */
  datatype Feedback = Feedback(packetNo: nat, ack: nat, data: Bytes)

  datatype Pkt = Pkt(wire: Record, firstSent: int, sentTime: int, rto: int,
                     sacked: bool, queued: bool, retries: nat)

  type Unacked = map<nat, Pkt>

  /** The state guarded by the sender's lock. */
  datatype Half = Half(unacked: Unacked, lowest: nat, flow: Flow, est: Rtt.Estimate)

  // ---- filing a frame ----

  function File(h: Half, n: nat, wire: Record, now: int): Half {
    h.(lowest := if h.unacked == map[] then n else h.lowest,
       unacked := h.unacked[n := Pkt(wire, now, now, h.est.rto, false, true, 0)])
  }

  // ---- cumulative acknowledgement ----

  /** The acknowledgement arrived within one round trip of the latest send, so it answers an earlier one. */
  predicate Spurious(p: Pkt, srtt: int, now: int) {
    p.retries > 0 && srtt > 0 && now - p.sentTime < srtt
  }

  function SRTT(e: Rtt.Estimate): int { if e.hasData then e.srtt else 0 }

  predicate Ignored(h: Half, sendSeq: nat, ack: nat) {
    ack >= sendSeq || h.unacked == map[] || ack < h.lowest
  }

  /** Karn's rule: only a frame sent once is a round-trip sample; 0 is no sample. */
  function SampleOf(u: Unacked, ack: nat, now: int): int {
    if ack in u && u[ack].retries == 0 && !u[ack].queued then now - u[ack].firstSent else 0
  }

  /** The frames from sequence n on. */
  function Above(u: Unacked, n: nat): Unacked {
    map k | k in u && k >= n :: u[k]
  }

  /** The frames below sequence n. */
  ghost function GoneBelow(u: Unacked, n: nat): set<nat> {
    set k | k in u && k < n
  }

  lemma GoneStep(u: Unacked, n: nat)
    ensures |GoneBelow(u, n + 1)| == |GoneBelow(u, n)| + if n in u then 1 else 0
  {
    var a, b := GoneBelow(u, n), GoneBelow(u, n + 1);
    if n in u {
      assert b == a + {n};
    } else {
      assert b == a;
    }
  }

  /** Some frame below n proves a timeout spurious. */
  ghost predicate SpuriousBelow(u: Unacked, n: nat, srtt: int, now: int) {
    exists k | k in u && k < n :: Spurious(u[k], srtt, now)
  }

  ghost function UndoneBelow(u: Unacked, n: nat, srtt: int, now: int, f: Flow): Flow {
    if SpuriousBelow(u, n, srtt, now) then UndoLoss(f) else f
  }

  /** Undoing twice is undoing once, so only whether any covered frame proves a timeout spurious
      matters, not which one. */
  lemma UndoStep(u: Unacked, n: nat, srtt: int, now: int, f: Flow)
    requires Sound(f)
    ensures UndoneBelow(u, n + 1, srtt, now, f) ==
            if n in u && Spurious(u[n], srtt, now) then UndoLoss(UndoneBelow(u, n, srtt, now, f))
            else UndoneBelow(u, n, srtt, now, f)
    ensures SpuriousBelow(u, n, srtt, now) ==> SpuriousBelow(u, n + 1, srtt, now)
  {
    UndoBounds(f);
  }

  /** The full-scan meaning of a cumulative acknowledgement: every key up to ack goes. */
  ghost function AfterAck(h: Half, sendSeq: nat, ack: nat, now: int): Half {
    if Ignored(h, sendSeq, ack) then h
    else
      var left := Above(h.unacked, ack + 1);
      var sample := SampleOf(h.unacked, ack, now);
      var est := Rtt.Sampled(h.est, sample);
      var seen := ObserveRTT(h.flow, sample);
      var undone := UndoneBelow(h.unacked, ack + 1, SRTT(est), now, seen);
      Half(left, if left == map[] then ack + 1 else MinOf(left.Keys),
           Acknowledged(undone, |GoneBelow(h.unacked, ack + 1)|), est)
  }

  /** The watermark bounds every key from below. */
  ghost predicate Watermark(h: Half) {
    forall n | n in h.unacked :: h.lowest <= n
  }

  // ---- selective acknowledgement ----

  /** The feedback updateSACK accepts: well shaped, about sequences already sent, and newer than the
      newest accepted so far. */
  ghost predicate Accepts(f: Flow, fb: Feedback, highest: nat) {
    && highest > 0
    && Sack.WellShaped(fb.data)
    && fb.ack <= highest
    && fb.packetNo > f.feedbackNo
    && forall n: nat | Sack.Reports(fb.ack, Sack.Words(fb.data), n) :: n <= highest
  }

  function Marked(u: Unacked, ack: nat, words: seq<Word>): Unacked {
    map n | n in u :: if Sack.Reports(ack, words, n) then u[n].(sacked := true) else u[n]
  }

  function Guard(p: Pkt, rtt: int): int {
    var guard := Max(5 * MS, GoDiv(rtt, 4));
    if p.retries > 0 then Max(guard, GoDiv(p.rto, 4)) else guard
  }

  /** A hole that fast repair may fill now. */
  predicate Repairable(p: Pkt, rtt: int, now: int) {
    && !p.sacked && !p.queued
    && now - p.sentTime >= Guard(p, rtt)
    && p.retries < MAX_RETRIES
  }

  function Repaired(p: Pkt, now: int): Pkt {
    p.(retries := p.retries + 1, sentTime := now, rto := Min(p.rto * 3 / 2, Rtt.MAX_RTO))
  }

  function RepairAll(u: Unacked, picks: seq<nat>, now: int): Unacked {
    map n | n in u :: if n in picks then Repaired(u[n], now) else u[n]
  }

  /** How many sequences the bitmap reports as buffered. */
  function ReportCount(words: seq<Word>): nat {
    if words == [] then 0
    else ReportCount(words[..|words| - 1]) + Bits.OnesCount(words[|words| - 1])
  }

  /** The repairable holes within the reach of a bitmap of `count` words. */
  ghost function Holes(u: Unacked, ack: nat, count: nat, highest: nat, rtt: int, now: int): set<nat> {
    set n | n in u && ack < n <= highest && n <= ack + 64 * count && Repairable(u[n], rtt, now)
  }

  ghost function FastPicks(u: Unacked, ack: nat, words: seq<Word>, highest: nat, rtt: int, now: int): seq<nat> {
    if ReportCount(words) < 3 then []
    else LowestOf(Holes(Marked(u, ack, words), ack, |words|, highest, rtt, now), FAST_REPAIR_MAX)
  }

  ghost function AfterSack(h: Half, fb: Feedback, highest: nat, rtt: int, now: int): Half {
    if !Accepts(h.flow, fb, highest) then h
    else
      var words := Sack.Words(fb.data);
      h.(flow := h.flow.(feedbackNo := fb.packetNo,
                         credit := Min(BytesUint16(fb.data), DELIVERY_WINDOW_WIDE)),
         unacked := RepairAll(Marked(h.unacked, fb.ack, words),
                              FastPicks(h.unacked, fb.ack, words, highest, rtt, now), now))
  }

  function WiresOf(u: Unacked, picks: seq<nat>): seq<Record>
    requires forall n | n in picks :: n in u
  {
    seq(|picks|, i requires 0 <= i < |picks| => assert picks[i] in picks; u[picks[i]].wire)
  }

  // ---- timeout repair ----

  predicate Waiting(p: Pkt) { !p.queued && !p.sacked }

  predicate Expired(p: Pkt, now: int) { Waiting(p) && now - p.sentTime > p.rto }

  /** Some frame has used up its retries: the session is given up. */
  ghost predicate Abandons(u: Unacked, now: int) {
    exists n | n in u :: Expired(u[n], now) && u[n].retries >= MAX_RETRIES
  }

  ghost function DueSet(u: Unacked, now: int): set<nat> {
    set n | n in u && Expired(u[n], now)
  }

  ghost predicate AnySacked(u: Unacked) { exists n | n in u :: u[n].sacked }

  ghost predicate AnyWaiting(u: Unacked) { exists n | n in u :: Waiting(u[n]) }

  /** creditProbeInterval. */
  ghost function ProbeInterval(f: Flow, u: Unacked): (int, bool) {
    if AnySacked(u) && AnyWaiting(u) then (25 * MS, true)
    else (100 * MS, f.credit == 0 || AnySacked(u))
  }

  ghost function RetryPicks(u: Unacked, now: int): seq<nat> {
    LowestOf(DueSet(u, now), RETRY_BURST_MAX)
  }

  ghost function AfterRetry(h: Half, now: int, rtt: int, bdp: nat): Half {
    if Abandons(h.unacked, now) then h
    else
      var picks := RetryPicks(h.unacked, now);
      var probed := if ProbeInterval(h.flow, h.unacked).1 then h.flow.(lastProbe := now) else h.flow;
      h.(unacked := RepairAll(h.unacked, picks, now),
         flow := if picks != [] then Loss(probed, now, rtt, true, bdp) else probed)
  }

  // ---- queued to sent ----

  predicate Carries(wires: seq<Record>, n: nat) {
    exists i | 0 <= i < |wires| :: wires[i].Data? && wires[i].seqNo == n
  }

  function Transmitted(p: Pkt, now: int): Pkt {
    p.(firstSent := if p.queued then now else p.firstSent, queued := false, sentTime := now)
  }

  function MarkTransmitted(u: Unacked, wires: seq<Record>, now: int): Unacked {
    map n | n in u :: if Carries(wires, n) then Transmitted(u[n], now) else u[n]
  }

  // ---- the object ----

  class SendBuffer {
    var unacked: Unacked
    var lowest: nat
    const flow: Sender
    const est: Rtt.Estimator

    ghost function State(): Half
      reads this, flow, est
    {
      Half(unacked, lowest, flow.State(), est.State())
    }

    constructor (flow: Sender, est: Rtt.Estimator)
      ensures this.flow == flow && this.est == est
      ensures State() == Half(map[], 0, flow.State(), est.State())
    {
      unacked := map[];
      lowest := 0;
      this.flow := flow;
      this.est := est;
    }

    /** The second lock region of sendRecord. */
    method Add(n: nat, wire: Record, now: int)
      requires Watermark(State())
      requires forall k | k in unacked :: k < n
      modifies this
      ensures State() == File(old(State()), n, wire, now)
      ensures Watermark(State())
    {
      if unacked == map[] {
        lowest := n;
      }
      unacked := unacked[n := Pkt(wire, now, now, est.rto, false, true, 0)];
    }

    /** handleAck: deletes forward from the watermark instead of scanning the map. */
    method HandleAck(sendSeq: nat, ack: nat, now: int)
      requires Watermark(State()) && Sound(flow.State())
      modifies this, flow, est
      ensures State() == AfterAck(old(State()), sendSeq, ack, now)
      ensures Watermark(State())
    {
      if ack >= sendSeq { return; }
      if unacked == map[] || ack < lowest { return; }
      Measure(ack, now);
      var srtt := if est.hasData then est.srtt else 0;
      var acknowledged := DropThrough(ack, srtt, now);
      MoveWatermark(ack);
      flow.OnAcknowledged(acknowledged);
    }

    /** The round-trip sample, if the acknowledged frame is fit for one. */
    method Measure(ack: nat, now: int)
      modifies flow, est
      ensures est.State() == Rtt.Sampled(old(est.State()), SampleOf(unacked, ack, now))
      ensures flow.State() == ObserveRTT(old(flow.State()), SampleOf(unacked, ack, now))
    {
      if ack in unacked && unacked[ack].retries == 0 && !unacked[ack].queued {
        var sample := now - unacked[ack].firstSent;
        est.Sample(sample);
        flow.ObserveSample(sample);
      }
    }

    /** The deletion loop; the first covered frame that proves a timeout spurious retracts its cut. */
    method DropThrough(ack: nat, srtt: int, now: int) returns (acknowledged: nat)
      requires Watermark(State()) && Sound(flow.State()) && lowest <= ack
      modifies this`unacked, flow
      ensures unacked == Above(old(unacked), ack + 1)
      ensures acknowledged == |GoneBelow(old(unacked), ack + 1)|
      ensures flow.State() == UndoneBelow(old(unacked), ack + 1, srtt, now, old(flow.State()))
    {
      ghost var u, f := unacked, flow.State();
      acknowledged := 0;
      var spurious := false;
      var n := lowest;
      assert GoneBelow(u, n) == {};
      while n <= ack
        invariant lowest <= n <= ack + 1
        invariant unacked == Above(u, n)
        invariant acknowledged == |GoneBelow(u, n)|
        invariant flow.State() == UndoneBelow(u, n, srtt, now, f)
        invariant spurious ==> SpuriousBelow(u, n, srtt, now)
      {
        GoneStep(u, n);
        UndoStep(u, n, srtt, now, f);
        if n in unacked {
          var p := unacked[n];
          if !spurious && p.retries > 0 && srtt > 0 && now - p.sentTime < srtt {
            spurious := flow.Undo();
            assert Spurious(u[n], srtt, now);
          }
          acknowledged := acknowledged + 1;
          unacked := unacked - {n};
        }
        n := n + 1;
      }
    }

    /** The watermark moves to the next key: usually ack+1, otherwise found by a scan. */
    method MoveWatermark(ack: nat)
      requires forall k | k in unacked :: k > ack
      modifies this`lowest
      ensures lowest == if unacked == map[] then ack + 1 else MinOf(unacked.Keys)
    {
      if unacked == map[] {
        lowest := ack + 1;
      } else if ack + 1 in unacked {
        lowest := ack + 1;
        assert IsMin(unacked.Keys, lowest);
      } else {
        var todo := unacked.Keys;
        var min :| min in todo;
        todo := todo - {min};
        while todo != {}
          invariant todo <= unacked.Keys && min in unacked
          invariant forall k | k in unacked && k !in todo :: min <= k
          decreases |todo|
        {
          var k :| k in todo;
          if k < min { min := k; }
          todo := todo - {k};
        }
        lowest := min;
        assert IsMin(unacked.Keys, lowest);
      }
    }

    // -- selective acknowledgement --

    /** updateSACK. */
    method UpdateSack(fb: Feedback, highest: nat, rtt: int, now: int) returns (wires: seq<Record>, valid: bool)
      modifies this`unacked, flow
      ensures valid == Accepts(old(flow.State()), fb, highest)
      ensures State() == AfterSack(old(State()), fb, highest, rtt, now)
      ensures valid ==>
                var picks := FastPicks(old(unacked), fb.ack, Sack.Words(fb.data), highest, rtt, now);
                (forall n | n in picks :: n in old(unacked)) && wires == WiresOf(old(unacked), picks)
      ensures !valid ==> wires == []
    {
      if highest == 0 || |fb.data| < 2 || |fb.data| > Sack.PAYLOAD_WIDE || (|fb.data| - 2) % 8 != 0
         || fb.ack > highest || fb.packetNo <= flow.feedbackNo {
        return [], false;
      }
      var words := Sack.Words(fb.data);
      var inRange, count := Validate(fb.ack, words, highest);
      if !inRange { return [], false; }
      var credit := BytesUint16(fb.data);
      if credit > DELIVERY_WINDOW_WIDE { credit := DELIVERY_WINDOW_WIDE; }
      flow.feedbackNo := fb.packetNo;
      flow.credit := credit;
      wires := MarkAndRepair(fb.ack, words, count, highest, rtt, now);
      valid := true;
    }

    method MarkAndRepair(ack: nat, words: seq<Word>, count: nat, highest: nat, rtt: int, now: int)
      returns (wires: seq<Record>)
      requires count == ReportCount(words)
      modifies this`unacked
      ensures var picks := FastPicks(old(unacked), ack, words, highest, rtt, now);
              && unacked == RepairAll(Marked(old(unacked), ack, words), picks, now)
              && (forall n | n in picks :: n in old(unacked))
              && wires == WiresOf(old(unacked), picks)
    {
      ghost var u := unacked;
      MarkReports(ack, words);
      if count < 3 {
        RepairNone(unacked, now);
        return [];
      }
      var due := FindHoles(ack, |words|, highest, rtt, now);
      LowestOfMeaning(Holes(unacked, ack, |words|, highest, rtt, now), FAST_REPAIR_MAX);
      wires := Repair(due, now);
      MarkedWires(u, ack, words, due);
    }

    /** The marking loop over the words of the bitmap. */
    method MarkReports(ack: nat, words: seq<Word>)
      modifies this`unacked
      ensures unacked == Marked(old(unacked), ack, words)
    {
      ghost var u := unacked;
      var i := 0;
      while i < |words|
        invariant 0 <= i <= |words|
        invariant unacked == Marked(u, ack, words[..i])
      {
        MarkWord(ack + 64 * i, words[i]);
        MarkedStep(u, ack, words, i, unacked);
        i := i + 1;
      }
      assert words[..i] == words;
    }

    /** The inner loop: takes the set bits of one word from the lowest up. */
    method MarkWord(base: nat, w: Word)
      modifies this`unacked
      ensures unacked == MarkedIn(old(unacked), base, w)
    {
      ghost var u := unacked;
      var bitsLeft := w;
      while bitsLeft != Bits.Zero()
        invariant forall i | 0 <= i < 64 :: bitsLeft[i] ==> w[i]
        invariant unacked == MarkedExcept(u, base, w, bitsLeft)
        decreases Bits.OnesCount(bitsLeft)
      {
        Bits.DropLowest(bitsLeft);
        var bit := Bits.TrailingZeros(bitsLeft);
        var n := base + bit + 1;
        if n in unacked {
          unacked := unacked[n := unacked[n].(sacked := true)];
        }
        Bits.FewerOnes(bitsLeft, bit, 64);
        bitsLeft := Bits.And(bitsLeft, Bits.Pred(bitsLeft));
      }
    }

    /** The candidate scan: oldest repairable holes first, at most three. */
    method FindHoles(ack: nat, count: nat, highest: nat, rtt: int, now: int) returns (due: seq<nat>)
      ensures due == LowestOf(Holes(unacked, ack, count, highest, rtt, now), FAST_REPAIR_MAX)
    {
      ghost var holes := Holes(unacked, ack, count, highest, rtt, now);
      due := [];
      var guard := Max(5 * MS, GoDiv(rtt, 4));
      var n := ack + 1;
      while n <= ack + 64 * count && n <= highest && |due| < FAST_REPAIR_MAX
        invariant ack < n
        invariant Increasing(due) && |due| <= FAST_REPAIR_MAX
        invariant forall x | x in due :: x in holes && x < n
        invariant forall x | x in holes && x < n :: x in due
      {
        if n in unacked && !unacked[n].sacked && !unacked[n].queued {
          var p := unacked[n];
          var guardFor := if p.retries > 0 then Max(guard, GoDiv(p.rto, 4)) else guard;
          if !(now - p.sentTime < guardFor || p.retries >= MAX_RETRIES) {
            IncreasingSnoc(due, n);
            due := due + [n];
          }
        }
        n := n + 1;
      }
      LowestOfUnique(holes, due, FAST_REPAIR_MAX);
    }

    /** Schedules the picked frames again. */
    method Repair(picks: seq<nat>, now: int) returns (wires: seq<Record>)
      requires Increasing(picks) && forall n | n in picks :: n in unacked
      modifies this`unacked
      ensures unacked == RepairAll(old(unacked), picks, now)
      ensures forall n | n in picks :: n in old(unacked)
      ensures wires == WiresOf(old(unacked), picks)
    {
      ghost var u := unacked;
      wires := [];
      var i := 0;
      RepairNone(u, now);
      while i < |picks|
        invariant 0 <= i <= |picks|
        invariant unacked == RepairAll(u, picks[..i], now)
        invariant wires == WiresOf(u, picks[..i])
      {
        var n := picks[i];
        assert n in picks;
        assert n !in picks[..i];
        assert picks[..i + 1] == picks[..i] + [n];
        wires := wires + [unacked[n].wire];
        unacked := unacked[n := Repaired(unacked[n], now)];
        i := i + 1;
      }
      assert picks[..i] == picks;
    }

    // -- timeout repair --

    /** retryDue. The reported delay is at most 10 ms, at least 1 ms, and never longer than the time any
        frame still has; frames that expired but exceed the burst wait for the next wake. */
    method RetryDue(now: int, rtt: int, bdp: nat)
      returns (wires: seq<Record>, abandoned: bool, delay: int, probe: bool, ghost wake: int)
      modifies this`unacked, flow
      ensures abandoned == Abandons(old(unacked), now)
      ensures State() == AfterRetry(old(State()), now, rtt, bdp)
      ensures abandoned ==> wires == [] && !probe
      ensures !abandoned ==>
                var picks := RetryPicks(old(unacked), now);
                && (forall n | n in picks :: n in old(unacked))
                && wires == WiresOf(old(unacked), picks)
                && probe == (ProbeInterval(old(flow.State()), old(unacked)).1 && old(unacked) != map[])
                && MS <= delay <= IDLE_DELAY
                && forall n | n in unacked && Waiting(unacked[n]) && !Expired(unacked[n], now) ::
                     delay <= Max(MS, unacked[n].rto - (now - unacked[n].sentTime))
      ensures !abandoned ==>
                WakesFor(old(unacked), unacked, old(flow.State()), now, wake) && delay == Max(1_000_000, wake)
    {
      ghost var u, f := unacked, flow.State();
      var gaveUp, due, next := CollectDue(now);
      if gaveUp { return [], true, 0, false, 0; }
      var interval, probing := Probing();
      if probing {
        var d := interval - (now - flow.lastProbe);
        if d < next { next := d; }
        flow.lastProbe := now;
      }
      LowestOfMeaning(DueSet(u, now), RETRY_BURST_MAX);
      wires := Repair(due, now);
      next := EarliestRepaired(due, next);
      if |wires| > 0 {
        flow.OnLoss(now, rtt, true, bdp);
      }
      DeadlinesKept(u, due, now, next);
      WakeHasCause(u, due, f, now, next);
      return wires, false, Max(MS, next), probing && unacked != map[], next;
    }

    /** The single pass over the map, in no particular order, then the sort and the burst limit. */
    method CollectDue(now: int) returns (gaveUp: bool, due: seq<nat>, next: int)
      ensures gaveUp == Abandons(unacked, now)
      ensures !gaveUp ==> due == RetryPicks(unacked, now) && SleepsNoLonger(unacked, now, next)
      ensures !gaveUp ==> next == IDLE_DELAY || RunsOutIn(unacked, now, next)
    {
      var found: seq<nat> := [];
      next := IDLE_DELAY;
      var todo := unacked.Keys;
      while todo != {}
        invariant todo <= unacked.Keys
        invariant Distinct(found)
        invariant forall n :: n in found <==> n in DueSet(unacked, now) - todo
        invariant forall n | n in DueSet(unacked, now) - todo :: unacked[n].retries < MAX_RETRIES
        invariant next <= IDLE_DELAY
        invariant next == IDLE_DELAY || RunsOutIn(unacked, now, next)
        invariant forall n | n in unacked && n !in todo && Waiting(unacked[n]) && !Expired(unacked[n], now) ::
                    next <= unacked[n].rto - (now - unacked[n].sentTime)
        decreases |todo|
      {
        var n :| n in todo;
        var p := unacked[n];
        todo := todo - {n};
        if !(p.queued || p.sacked) {
          var remaining := p.rto - (now - p.sentTime);
          if remaining >= 0 {
            if remaining < next { next := remaining; }
          } else {
            if p.retries >= MAX_RETRIES {
              return true, [], 0;
            }
            found := found + [n];
          }
        }
      }
      gaveUp := false;
      forall n | n in unacked && Expired(unacked[n], now) ensures unacked[n].retries < MAX_RETRIES {
        assert n in DueSet(unacked, now) - todo;
      }
      due := LowestInOrder(found, RETRY_BURST_MAX);
      assert Elements(found) == DueSet(unacked, now);
    }

    /** creditProbeInterval. */
    method Probing() returns (interval: int, probing: bool)
      ensures (interval, probing) == ProbeInterval(flow.State(), unacked)
    {
      var sacked, gap := false, false;
      var todo := unacked.Keys;
      while todo != {}
        invariant todo <= unacked.Keys
        invariant sacked <==> exists n | n in unacked && n !in todo :: unacked[n].sacked
        invariant gap <==> exists n | n in unacked && n !in todo :: Waiting(unacked[n])
        decreases |todo|
      {
        var n :| n in todo;
        if unacked[n].sacked { sacked := true; } else if !unacked[n].queued { gap := true; }
        todo := todo - {n};
      }
      if sacked && gap { return 25 * MS, true; }
      return 100 * MS, flow.credit == 0 || sacked;
    }

    method EarliestRepaired(picks: seq<nat>, start: int) returns (next: int)
      requires forall n | n in picks :: n in unacked
      ensures next <= start && forall n | n in picks :: next <= unacked[n].rto
      ensures next == start || exists n | n in picks :: next == unacked[n].rto
    {
      next := start;
      var i := 0;
      while i < |picks|
        invariant 0 <= i <= |picks|
        invariant next <= start && forall n | n in picks[..i] :: next <= unacked[n].rto
        invariant next == start || exists n | n in picks :: next == unacked[n].rto
      {
        assert picks[i] in picks;
        if unacked[picks[i]].rto < next { next := unacked[picks[i]].rto; }
        assert picks[..i + 1] == picks[..i] + [picks[i]];
        i := i + 1;
      }
      assert picks[..i] == picks;
    }

    // -- queued to sent --

    /** markTransmitted, run after the batch was written to the socket. */
    method OnTransmitted(wires: seq<Record>, now: int)
      modifies this`unacked
      ensures unacked == MarkTransmitted(old(unacked), wires, now)
    {
      ghost var u := unacked;
      var i := 0;
      while i < |wires|
        invariant 0 <= i <= |wires|
        invariant unacked == MarkTransmitted(u, wires[..i], now)
      {
        ghost var before := unacked;
        if wires[i].Data? && wires[i].seqNo in unacked {
          var n := wires[i].seqNo;
          var p := unacked[n];
          var first := if p.queued then now else p.firstSent;
          unacked := unacked[n := p.(firstSent := first, queued := false, sentTime := now)];
        }
        TransmittedStep(u, wires, i, now, before, unacked);
        i := i + 1;
      }
      assert wires[..i] == wires;
    }
  }

  // ---- helpers of the loops ----

  /** Sorts and keeps the first n: sort.Slice followed by the burst limit. */
  method LowestInOrder(found: seq<nat>, n: nat) returns (due: seq<nat>)
    requires Distinct(found)
    ensures due == LowestOf(Elements(found), n)
  {
    SortNat(found);
    var sorted: seq<nat> := Sort(found);
    SortMembers(found);
    SortIncreasing(found);
    due := if |sorted| > n then sorted[..n] else sorted;
    PrefixIsLowest(found, sorted, due, n);
  }

  lemma PrefixIsLowest(found: seq<nat>, sorted: seq<nat>, due: seq<nat>, n: nat)
    requires Increasing(sorted) && (forall x :: x in sorted <==> x in found)
    requires due == if |sorted| > n then sorted[..n] else sorted
    ensures due == LowestOf(Elements(found), n)
  {
    var s := Elements(found);
    forall x | x in due ensures x in s { assert x in sorted; }
    forall x, y | x in due && y in s && y !in due ensures x < y {
      assert y in sorted;
      var j :| 0 <= j < |sorted| && sorted[j] == y;
      var i :| 0 <= i < |due| && due[i] == x;
      assert forall k | 0 <= k < |due| :: due[k] == sorted[k] && due[k] in due;
      assert sorted[i] < sorted[j];
    }
    LowestOfUnique(s, due, n);
  }

  /** Some waiting frame has exactly this much time left. */
  ghost predicate RunsOutIn(u: Unacked, now: int, left: int) {
    exists n | n in u :: !u[n].queued && !u[n].sacked && left == u[n].rto - (now - u[n].sentTime) >= 0
  }

  /** What a sleep may be cut short for: a frame's own timeout, a probe, a frame just rescheduled, or the idle limit. */
  ghost predicate WakesFor(u: Unacked, v: Unacked, f: Flow, now: int, wake: int) {
    || wake == 10_000_000
    || RunsOutIn(u, now, wake)
    || (ProbeInterval(f, u).1 && wake == ProbeInterval(f, u).0 - (now - f.lastProbe))
    || exists n | n in v && n in u :: v[n] != u[n] && wake == v[n].rto
  }

  /** No waiting frame's remaining time is shorter than `next`. */
  ghost predicate SleepsNoLonger(u: Unacked, now: int, next: int) {
    && next <= IDLE_DELAY
    && forall n | n in u && Waiting(u[n]) && !Expired(u[n], now) :: next <= u[n].rto - (now - u[n].sentTime)
  }

  lemma WakeHasCause(u: Unacked, picks: seq<nat>, f: Flow, now: int, next: int)
    requires forall n | n in picks :: n in u
    requires var v := RepairAll(u, picks, now);
             || next == IDLE_DELAY || RunsOutIn(u, now, next)
             || (ProbeInterval(f, u).1 && next == ProbeInterval(f, u).0 - (now - f.lastProbe))
             || exists n | n in picks :: next == v[n].rto
    ensures WakesFor(u, RepairAll(u, picks, now), f, now, next)
  {
    var v := RepairAll(u, picks, now);
    if n :| n in picks && next == v[n].rto {
      assert v[n].retries == u[n].retries + 1;
    }
  }

  lemma DeadlinesKept(u: Unacked, picks: seq<nat>, now: int, next: int)
    requires SleepsNoLonger(u, now, next)
    requires forall n | n in picks :: n in u && next <= Repaired(u[n], now).rto
    ensures SleepsNoLonger(RepairAll(u, picks, now), now, next)
  {
  }

  lemma TransmittedStep(u: Unacked, wires: seq<Record>, i: nat, now: int, before: Unacked, after: Unacked)
    requires i < |wires| && before == MarkTransmitted(u, wires[..i], now)
    requires if wires[i].Data? && wires[i].seqNo in before
             then after == before[wires[i].seqNo := Transmitted(before[wires[i].seqNo], now)]
             else after == before
    ensures after == MarkTransmitted(u, wires[..i + 1], now)
  {
    var more := wires[..i + 1];
    forall n | n in u ensures after[n] == MarkTransmitted(u, more, now)[n] {
      if Carries(wires[..i], n) {
        var k :| 0 <= k < i && wires[..i][k].Data? && wires[..i][k].seqNo == n;
        assert more[k] == wires[..i][k];
      }
      if Carries(more, n) && !(wires[i].Data? && wires[i].seqNo == n) {
        var k :| 0 <= k < |more| && more[k].Data? && more[k].seqNo == n;
        assert wires[..i][k] == more[k];
      }
      if wires[i].Data? && wires[i].seqNo == n {
        assert more[i] == wires[i];
      }
    }
  }

  /** Validates every word before anything is changed: all reported sequences must already have been
      sent. */
  method Validate(ack: nat, words: seq<Word>, highest: nat) returns (inRange: bool, count: nat)
    requires ack <= highest
    ensures inRange <==> forall n: nat | Sack.Reports(ack, words, n) :: n <= highest
    ensures inRange ==> count == ReportCount(words)
  {
    count := 0;
    var i := 0;
    while i < |words|
      invariant 0 <= i <= |words|
      invariant count == ReportCount(words[..i])
      invariant forall n: nat | Sack.Reports(ack, words, n) && n <= ack + 64 * i :: n <= highest
    {
      var w := words[i];
      if w != Bits.Zero() && highest - ack < i * 64 + Bits.Len(w) {
        NonZeroLen(w);
        Sack.ReportsBit(ack, words, i, Bits.Len(w) - 1);
        assert Sack.Reports(ack, words, ack + 64 * i + Bits.Len(w));
        return false, 0;
      }
      WordInRange(ack, words, i, highest);
      assert words[..i + 1][..i] == words[..i];
      count := count + Bits.OnesCount(w);
      i := i + 1;
    }
    assert words[..i] == words;
    inRange := true;
  }

  lemma NonZeroLen(w: Word)
    requires w != Bits.Zero()
    ensures Bits.Len(w) > 0
  {
    assert exists i :: 0 <= i < 64 && w[i] != Bits.Zero()[i];
  }

  lemma WordInRange(ack: nat, words: seq<Word>, i: nat, highest: nat)
    requires i < |words|
    requires words[i] == Bits.Zero() || ack + i * 64 + Bits.Len(words[i]) <= highest
    ensures forall n: nat | Sack.Reports(ack, words, n) && ack + 64 * i < n <= ack + 64 * (i + 1) :: n <= highest
  {
    forall n: nat | Sack.Reports(ack, words, n) && ack + 64 * i < n <= ack + 64 * (i + 1) ensures n <= highest {
      var k := n - ack - 64 * i - 1;
      Sack.ReportsBit(ack, words, i, k);
      assert words[i] != Bits.Zero() by { assert words[i][k]; }
    }
  }

  /** Marks of one word whose bit 0 stands for sequence base+1. */
  function MarkedIn(u: Unacked, base: nat, w: Word): Unacked {
    map n | n in u :: if base < n <= base + 64 && w[n - base - 1] then u[n].(sacked := true) else u[n]
  }

  /** The same, with some bits still to be taken. */
  function MarkedExcept(u: Unacked, base: nat, w: Word, left: Word): Unacked {
    map n | n in u ::
      if base < n <= base + 64 && w[n - base - 1] && !left[n - base - 1] then u[n].(sacked := true) else u[n]
  }

  /** One more word: the first i words mark what lies up to 64i above ack, word i marks the next 64. */
  lemma MarkedStep(u: Unacked, ack: nat, words: seq<Word>, i: nat, after: Unacked)
    requires i < |words|
    requires after == MarkedIn(Marked(u, ack, words[..i]), ack + 64 * i, words[i])
    ensures after == Marked(u, ack, words[..i + 1])
  {
    forall n | n in u ensures after[n] == Marked(u, ack, words[..i + 1])[n] {
      PrefixReports(ack, words, i, n);
    }
  }

  lemma PrefixReports(ack: nat, words: seq<Word>, i: nat, n: nat)
    requires i < |words|
    ensures var base := ack + 64 * i;
            Sack.Reports(ack, words[..i + 1], n) <==>
            Sack.Reports(ack, words[..i], n) || (base < n <= base + 64 && words[i][n - base - 1])
  {
    var base := ack + 64 * i;
    if base < n <= base + 64 {
      Sack.ReportsBit(ack, words[..i + 1], i, n - base - 1);
    } else if ack < n <= base {
      var j, k := (n - ack - 1) / 64, (n - ack - 1) % 64;
      Sack.ReportsBit(ack, words[..i + 1], j, k);
      Sack.ReportsBit(ack, words[..i], j, k);
    }
  }

  lemma RepairNone(u: Unacked, now: int)
    ensures RepairAll(u, [], now) == u
  {
  }

  lemma MarkedWires(u: Unacked, ack: nat, words: seq<Word>, picks: seq<nat>)
    requires forall n | n in picks :: n in u
    ensures WiresOf(Marked(u, ack, words), picks) == WiresOf(u, picks)
  {
    var v := Marked(u, ack, words);
    forall i | 0 <= i < |picks| ensures WiresOf(v, picks)[i] == WiresOf(u, picks)[i] {
      assert picks[i] in picks;
    }
  }
}
