/** The congestion window of one session (tunnel/recovery.go, sendFlow). Durations are nanoseconds.
    The floating-point delivery-rate estimate enters only as the frame count `bdp` it yields. */
module SendFlow {

  import opened Common

  const INITIAL_CWND: nat := 256
  const CONGESTED_FACTOR: int := 2
  const MIN_RTT_DRIFT: int := 64

  function Ceiling(wide: bool): nat {
    if wide then DELIVERY_WINDOW_WIDE else DELIVERY_WINDOW
  }

  /** The fields of a sendFlow, as one value. */
  datatype Flow = Flow(
    max: int, cwnd: int, credit: int,
    ssthresh: int, growth: int,
    lastLoss: Option<int>,
    lastLossCut: int, lastLossSSThresh: int,
    feedbackNo: nat,
    lastProbe: int,
    minRTT: int, westwood: bool, restartTo: int)

  // ---- what each operation computes ----

  function NewFlow(maximum: int, automatic: bool, westwood: bool, wide: bool): Flow {
    var ceiling := Ceiling(wide);
    var m := Min(Max(if automatic then ceiling else maximum, 1), ceiling);
    Flow(m, Min(INITIAL_CWND, m), ceiling, m, 0, None, 0, 0, 0, 0, 0, westwood, 0)
  }

  function Window(f: Flow): int { Min(f.cwnd, f.credit) }

  function ObserveRTT(f: Flow, sample: int): Flow {
    if sample <= 0 then f
    else if f.minRTT <= 0 || sample < f.minRTT then f.(minRTT := sample)
    else f.(minRTT := f.minRTT + (sample - f.minRTT) / MIN_RTT_DRIFT)
  }

  function Acknowledged(f: Flow, n: nat): Flow {
    var g := if f.restartTo > 0
             then f.(ssthresh := Max(f.cwnd, Min(f.max, f.restartTo)), restartTo := 0) else f;
    if g.cwnd < g.ssthresh then g.(cwnd := Min(g.max, g.cwnd + n))
    else if g.growth + n >= g.cwnd then
      g.(growth := g.growth + n - g.cwnd, cwnd := Min(g.max, g.cwnd + 1))
    else g.(growth := g.growth + n)
  }

  predicate Congested(f: Flow, rtt: int) {
    f.minRTT <= 0 || rtt >= f.minRTT * CONGESTED_FACTOR
  }

  function PacedRTT(rtt: int): int { Max(rtt, 10 * MS) }

  /** Cuts closer together than one round trip are merged into the first. */
  predicate TooSoon(f: Flow, now: int, rtt: int) {
    f.lastLoss.Some? && now - f.lastLoss.value < PacedRTT(rtt)
  }

  /** A loss on a path whose round trip sits at its floor, with the discrimination enabled. */
  predicate RandomLoss(f: Flow, rtt: int) {
    f.minRTT > 0 && f.westwood && !Congested(f, PacedRTT(rtt))
  }

  function QuarterFloor(f: Flow): int { Max(2, f.cwnd - f.cwnd / 4) }

  function LossTarget(f: Flow, rtt: int, bdp: nat): int {
    if RandomLoss(f, rtt)
    then if bdp >= 2 then Max(bdp, QuarterFloor(f)) else QuarterFloor(f)
    else Max(2, f.cwnd / 2)
  }

  function LossRestart(f: Flow, rtt: int): int {
    if f.minRTT <= 0 then f.cwnd else if RandomLoss(f, rtt) then f.max else 0
  }

  function Loss(f: Flow, now: int, rtt: int, undoable: bool, bdp: nat): Flow {
    if TooSoon(f, now, rtt) then f
    else
      var g := f.(lastLoss := Some(now));
      var h := if undoable then g.(lastLossCut := f.cwnd, lastLossSSThresh := f.ssthresh) else g;
      if RandomLoss(f, rtt) && bdp >= QuarterFloor(f) then h
      else CutTo(h, LossTarget(f, rtt, bdp), LossRestart(f, rtt), undoable)
  }

  /** The cut itself; a cut that cannot be undone also forgets the earlier cut point. */
  function CutTo(f: Flow, target: int, restart: int, undoable: bool): Flow {
    var thresh := Max(2, Min(f.cwnd, target));
    var cut := f.(ssthresh := thresh, cwnd := Min(f.max, thresh), growth := 0, restartTo := restart);
    if undoable then cut else cut.(lastLossCut := 0, lastLossSSThresh := 0)
  }

  /** Does undoing revert a cut? */
  predicate Undoes(f: Flow) { f.lastLossCut > f.cwnd }

  function UndoLoss(f: Flow): Flow {
    if Undoes(f) then
      f.(lastLossCut := 0, cwnd := Min(f.max, f.lastLossCut), growth := 0,
         ssthresh := if f.lastLossSSThresh > f.ssthresh then f.lastLossSSThresh else f.ssthresh)
    else f.(lastLossCut := 0)
  }

  // ---- the object ----

  class Sender {
    var max: int
    var cwnd: int
    var credit: int
    var ssthresh: int
    var growth: int
    var lastLoss: Option<int>
    var lastLossCut: int
    var lastLossSSThresh: int
    var feedbackNo: nat
    var lastProbe: int
    var minRTT: int
    var westwood: bool
    var restartTo: int

    function State(): Flow
      reads this
    {
      Flow(max, cwnd, credit, ssthresh, growth, lastLoss, lastLossCut, lastLossSSThresh, feedbackNo,
           lastProbe, minRTT, westwood, restartTo)
    }

    constructor (maximum: int, automatic: bool, westwood: bool, wide: bool)
      ensures State() == NewFlow(maximum, automatic, westwood, wide)
    {
      var ceiling := if wide then DELIVERY_WINDOW_WIDE else DELIVERY_WINDOW;
      var m := if automatic then ceiling else maximum;
      m := Min(Max(m, 1), ceiling);
      max := m;
      cwnd := Min(INITIAL_CWND, m);
      credit := ceiling;
      ssthresh := m;
      this.westwood := westwood;
      growth, lastLoss, lastLossCut, lastLossSSThresh := 0, None, 0, 0;
      feedbackNo, lastProbe, minRTT, restartTo := 0, 0, 0, 0;
    }

    method ObserveSample(sample: int)
      modifies this
      ensures State() == ObserveRTT(old(State()), sample)
      ensures sample > 0 ==> 0 < minRTT <= sample
      ensures sample > 0 && old(minRTT) > 0 ==> Min(old(minRTT), sample) <= minRTT
      ensures sample <= 0 ==> minRTT == old(minRTT)
    {
      if sample <= 0 { return; }
      if minRTT <= 0 || sample < minRTT {
        minRTT := sample;
        return;
      }
      minRTT := minRTT + (sample - minRTT) / MIN_RTT_DRIFT;
    }

    method OnAcknowledged(n: nat)
      modifies this
      ensures State() == Acknowledged(old(State()), n)
    {
      if restartTo > 0 {
        ssthresh := Max(cwnd, Min(max, restartTo));
        restartTo := 0;
      }
      if cwnd < ssthresh {
        cwnd := Min(max, cwnd + n);
        return;
      }
      growth := growth + n;
      if growth >= cwnd {
        growth := growth - cwnd;
        cwnd := Min(max, cwnd + 1);
      }
    }

    method OnLoss(now: int, measured: int, undoable: bool, bdp: nat)
      modifies this
      ensures State() == Loss(old(State()), now, measured, undoable, bdp)
    {
      ghost var f := State();
      var rtt := measured;
      if rtt < 10 * MS { rtt := 10 * MS; }
      assert rtt == PacedRTT(measured);
      if lastLoss.Some? && now - lastLoss.value < rtt { return; }
      lastLoss := Some(now);
      var pre := cwnd;
      if undoable {
        lastLossCut := pre;
        lastLossSSThresh := ssthresh;
      }
      var floor := Max(2, cwnd - cwnd / 4);
      var target := Max(2, cwnd / 2);
      var restart := 0;
      if minRTT <= 0 {
        restart := pre;
      } else if westwood && !(minRTT <= 0 || rtt >= minRTT * CONGESTED_FACTOR) {
        if bdp >= floor { return; }
        target := if bdp >= 2 then Max(bdp, floor) else floor;
        restart := max;
      }
      assert target == LossTarget(f, measured, bdp) && restart == LossRestart(f, measured);
      Cut(target, restart, undoable);
    }

    method Cut(target: int, restart: int, undoable: bool)
      modifies this
      ensures State() == CutTo(old(State()), target, restart, undoable)
    {
      ssthresh := Max(2, Min(cwnd, target));
      cwnd := Min(max, ssthresh);
      growth := 0;
      restartTo := restart;
      if !undoable {
        lastLossCut := 0;
        lastLossSSThresh := 0;
      }
    }

    method Undo() returns (reverted: bool)
      modifies this
      ensures State() == UndoLoss(old(State()))
      ensures reverted == Undoes(old(State()))
    {
      var cut := lastLossCut;
      lastLossCut := 0;
      if cut <= cwnd { return false; }
      cwnd := Min(max, cut);
      if lastLossSSThresh > ssthresh {
        ssthresh := lastLossSSThresh;
      }
      growth := 0;
      return true;
    }
  }

  // ---- one operation ----

  /** What every operation keeps: the window stays between min(2, max) and max, and the remembered
      cut point is a window size. */
  predicate Sound(f: Flow) {
    && 1 <= f.max
    && Min(2, f.max) <= f.cwnd <= f.max
    && 0 <= f.growth
    && 0 <= f.lastLossCut <= f.max
    && 0 <= f.credit
  }

  /** The window in force is the lesser of congestion window and credit. */
  lemma WindowMeaning(f: Flow, n: int)
    ensures n < Window(f) <==> n < f.cwnd && n < f.credit
  {
  }

  /** A new flow: the maximum is the configured one, or all the peer buffers, and the window starts at 256. */
  lemma NewFlowMeaning(maximum: int, automatic: bool, westwood: bool, wide: bool)
    ensures var f, ceiling := NewFlow(maximum, automatic, westwood, wide), if wide then 4096 else 512;
            && f.max == (if automatic || maximum > ceiling then ceiling else if maximum < 1 then 1 else maximum)
            && f.cwnd == (if f.max < 256 then f.max else 256)
            && f.ssthresh == f.max && f.credit == ceiling && f.westwood == westwood
            && f.growth == f.restartTo == f.lastLossCut == f.minRTT == 0 && f.feedbackNo == 0
  {
  }

  // -- growth --

  function Total(ns: seq<nat>): nat { if ns == [] then 0 else Total(ns[..|ns| - 1]) + ns[|ns| - 1] }

  function AcknowledgedAll(f: Flow, ns: seq<nat>): Flow {
    if ns == [] then f else Acknowledged(AcknowledgedAll(f, ns[..|ns| - 1]), ns[|ns| - 1])
  }

  /** Slow start: over any acknowledgements that begin while the window is below the threshold, it grows by exactly
      the frames acknowledged, up to the maximum. */
  lemma {:induction false} SlowStartGrows(f: Flow, ns: seq<nat>)
    requires f.restartTo <= 0 && f.cwnd <= f.max
    requires forall i | 0 <= i < |ns| :: Min(f.max, f.cwnd + Total(ns[..i])) < f.ssthresh
    ensures AcknowledgedAll(f, ns) == f.(cwnd := Min(f.max, f.cwnd + Total(ns)))
  {
    if ns == [] {
    } else {
      var last := |ns| - 1;
      var before := ns[..last];
      assert forall i | 0 <= i < last :: before[..i] == ns[..i];
      SlowStartGrows(f, before);
    }
  }

  /** Congestion avoidance: acknowledgements that do not complete a window leave it alone and are counted. */
  lemma {:induction false} PartWindowWaits(f: Flow, ns: seq<nat>)
    requires f.restartTo <= 0 && f.cwnd >= f.ssthresh && f.growth + Total(ns) < f.cwnd
    ensures AcknowledgedAll(f, ns) == f.(growth := f.growth + Total(ns))
  {
    if ns == [] {
    } else {
      PartWindowWaits(f, ns[..|ns| - 1]);
    }
  }

  /** The acknowledgement that completes a window's worth raises the window by one, up to the maximum, and carries the
      excess over. */
  lemma FullWindowGrowsByOne(f: Flow, ns: seq<nat>)
    requires f.restartTo <= 0 && f.ssthresh <= f.cwnd <= f.max && ns != []
    requires f.growth + Total(ns[..|ns| - 1]) < f.cwnd <= f.growth + Total(ns)
    ensures AcknowledgedAll(f, ns) == f.(cwnd := Min(f.max, f.cwnd + 1), growth := f.growth + Total(ns) - f.cwnd)
  {
    PartWindowWaits(f, ns[..|ns| - 1]);
  }

  /** With a restart pending the first acknowledgement lifts the threshold to the restart point, so the window climbs
      as in slow start up to it. */
  lemma {:induction false} RestartClimbs(f: Flow, ns: seq<nat>)
    requires f.restartTo > 0 && ns != []
    ensures var target := Max(f.cwnd, Min(f.max, f.restartTo));
            AcknowledgedAll(f, ns) == AcknowledgedAll(f.(ssthresh := target, restartTo := 0), ns)
  {
    if |ns| == 1 {
      assert ns[..0] == [];
    } else {
      RestartClimbs(f, ns[..|ns| - 1]);
    }
  }

  /** In figures: while the sum stays below the restart point the window is its start plus the sum. */
  lemma RestartGrows(f: Flow, ns: seq<nat>)
    requires f.restartTo > 0 && f.cwnd <= f.max && ns != []
    requires forall i | 0 <= i < |ns| :: f.cwnd + Total(ns[..i]) < Min(f.max, f.restartTo)
    ensures AcknowledgedAll(f, ns).cwnd == Min(f.max, f.cwnd + Total(ns))
  {
    var target := Min(f.max, f.restartTo);
    assert ns[..0] == [] && f.cwnd + Total(ns[..0]) < target;
    RestartClimbs(f, ns);
    ClimbGrows(f.(ssthresh := target, restartTo := 0), ns);
  }

  lemma ClimbGrows(f: Flow, ns: seq<nat>)
    requires f.restartTo <= 0 && f.cwnd <= f.max && f.ssthresh <= f.max
    requires forall i | 0 <= i < |ns| :: f.cwnd + Total(ns[..i]) < f.ssthresh
    ensures AcknowledgedAll(f, ns) == f.(cwnd := Min(f.max, f.cwnd + Total(ns)))
  {
    SlowStartGrows(f, ns);
  }

  // -- loss --

  /** What a loss does to the window. One within a round trip of the last, or within 10 ms, does nothing. One taken for
      random, in Westwood mode on a path below twice its floor, keeps the window if the bandwidth estimate covers three
      quarters of it and cuts to three quarters otherwise. Any other halves it. */
  lemma LossExactly(f: Flow, now: int, rtt: int, undoable: bool, bdp: nat)
    requires Sound(f)
    ensures var g, paced := Loss(f, now, rtt, undoable, bdp), Max(rtt, 10_000_000);
            if f.lastLoss.Some? && now - f.lastLoss.value < paced then g == f
            else
              var random := f.westwood && f.minRTT > 0 && paced < 2 * f.minRTT;
              var kept := Max(2, f.cwnd - f.cwnd / 4);
              && g.lastLoss == Some(now)
              && g.cwnd == (if random then if bdp >= kept then f.cwnd else Min(f.max, Min(f.cwnd, kept))
                            else Min(f.max, Max(2, f.cwnd / 2)))
              && (random && bdp >= kept ==> g.ssthresh == f.ssthresh && g.restartTo == f.restartTo)
              && (!(random && bdp >= kept) ==>
                    && g.growth == 0 && g.ssthresh == Max(2, g.cwnd)
                    && g.restartTo == (if f.minRTT <= 0 then f.cwnd else if random then f.max else 0))
  {
  }

  /** Undoing also lifts the threshold back to what it was at the cut, and starts counting anew. */
  lemma UndoExactly(f: Flow)
    ensures var g := UndoLoss(f);
            && g.lastLossCut == 0
            && (f.lastLossCut <= f.cwnd ==> g == f.(lastLossCut := 0))
            && (f.lastLossCut > f.cwnd ==>
                  && g.cwnd == Min(f.max, f.lastLossCut) && g.growth == 0
                  && g.ssthresh == Max(f.ssthresh, f.lastLossSSThresh))
  {
  }

  /** One cut: never raises the window, never takes more than half, and never more than a quarter
      when the loss is diagnosed as random. */
  lemma LossBounds(f: Flow, now: int, rtt: int, undoable: bool, bdp: nat)
    requires Sound(f)
    ensures var g := Loss(f, now, rtt, undoable, bdp);
            && Sound(g)
            && f.cwnd / 2 <= g.cwnd <= f.cwnd
            && (RandomLoss(f, rtt) ==> g.cwnd >= f.cwnd - f.cwnd / 4)
            && (g.cwnd < f.cwnd && undoable ==> g.lastLossCut == f.cwnd)
            && (g.cwnd < f.cwnd && !undoable ==> g.lastLossCut == 0)
  {
  }

  /** Undoing restores exactly the remembered window, or nothing; and it works once. */
  lemma UndoBounds(f: Flow)
    requires Sound(f)
    ensures var g := UndoLoss(f);
            && Sound(g)
            && g.cwnd == Max(f.cwnd, f.lastLossCut)
            && !Undoes(g) && UndoLoss(g) == g
  {
  }

  /** A cut followed at once by its undo leaves the window and the slow-start threshold as before,
      unless the threshold was already below the new one. */
  lemma UndoInvertsLoss(f: Flow, now: int, rtt: int, bdp: nat)
    requires Sound(f) && f.max >= 2
    ensures var g := UndoLoss(Loss(f, now, rtt, true, bdp));
            && (!TooSoon(f, now, rtt) ==> g.cwnd == f.cwnd)
            && (Loss(f, now, rtt, true, bdp).cwnd < f.cwnd && f.ssthresh >= f.cwnd ==> g.ssthresh == f.ssthresh)
  {
  }

  // ---- whole runs ----

  datatype Event =
    | Acked(n: nat)
    | Lost(now: int, rtt: int, undoable: bool, bdp: nat)
    | Undone
    | Sampled(sample: int)
    | Credited(packetNo: nat, credit: nat)

  function After(f: Flow, e: Event): Flow {
    match e
    case Acked(n) => Acknowledged(f, n)
    case Lost(now, rtt, undoable, bdp) => Loss(f, now, rtt, undoable, bdp)
    case Undone => UndoLoss(f)
    case Sampled(sample) => ObserveRTT(f, sample)
    case Credited(no, credit) => f.(feedbackNo := no, credit := credit)
  }

  /** The flow after the first k events. */
  function StateAt(f: Flow, events: seq<Event>, k: nat): Flow
    requires k <= |events|
  {
    if k == 0 then f else After(StateAt(f, events, k - 1), events[k - 1])
  }

  lemma AfterSound(f: Flow, e: Event)
    requires Sound(f)
    ensures Sound(After(f, e)) && After(f, e).max == f.max
  {
  }

  lemma {:induction false} StateAtSound(f: Flow, events: seq<Event>, k: nat)
    requires Sound(f) && k <= |events|
    ensures Sound(StateAt(f, events, k)) && StateAt(f, events, k).max == f.max
  {
    if k == 0 {
    } else {
      StateAtSound(f, events, k - 1);
      AfterSound(StateAt(f, events, k - 1), events[k - 1]);
    }
  }

  /** From a fresh flow, every run of events keeps min(2, max) <= cwnd <= max <= ceiling. */
  lemma WindowAlwaysSound(maximum: int, automatic: bool, westwood: bool, wide: bool,
                          events: seq<Event>, k: nat)
    requires k <= |events|
    ensures var f := StateAt(NewFlow(maximum, automatic, westwood, wide), events, k);
            && Sound(f)
            && f.max == NewFlow(maximum, automatic, westwood, wide).max <= Ceiling(wide)
            && Window(f) <= Ceiling(wide)
  {
    StateAtSound(NewFlow(maximum, automatic, westwood, wide), events, k);
  }

  /** The latest positive round-trip sample among the first k events; 0 is none. */
  function LatestSample(events: seq<Event>, k: nat): int
    requires k <= |events|
  {
    if k == 0 then 0
    else if events[k - 1].Sampled? && events[k - 1].sample > 0 then events[k - 1].sample
    else LatestSample(events, k - 1)
  }

  /** Over every run the round-trip floor lies between the least sample and the latest one, and it is unset exactly
      while there was no sample. */
  lemma {:induction false} FloorFollowsSamples(f: Flow, events: seq<Event>, k: nat, least: int)
    requires f.minRTT == 0 && k <= |events|
    requires forall i | 0 <= i < k && events[i].Sampled? && events[i].sample > 0 :: least <= events[i].sample
    ensures var floor, latest := StateAt(f, events, k).minRTT, LatestSample(events, k);
            && (floor == 0 <==> latest == 0)
            && (floor != 0 ==> 0 < floor && least <= floor <= latest)
  {
    if k == 0 {
    } else {
      FloorFollowsSamples(f, events, k - 1, least);
      FloorStep(StateAt(f, events, k - 1), events[k - 1]);
    }
  }

  /** Only a sample moves the floor: down to it at once, or up by a 64th of the way to it. */
  lemma FloorStep(f: Flow, e: Event)
    requires f.minRTT >= 0
    ensures var floor := After(f, e).minRTT;
            if e.Sampled? && e.sample > 0
            then if f.minRTT == 0 || e.sample < f.minRTT then floor == e.sample
                 else 64 * (floor - f.minRTT) <= e.sample - f.minRTT < 64 * (floor - f.minRTT + 1)
            else floor == f.minRTT
  {
  }

  /** Event j is an undoable cut that was not merged into an earlier one. */
  predicate UndoableCut(f: Flow, events: seq<Event>, j: nat)
    requires j < |events|
  {
    && events[j].Lost? && events[j].undoable
    && !TooSoon(StateAt(f, events, j), events[j].now, events[j].rtt)
  }

  /** Event j is the latest undoable cut before k, and no undo came since. */
  ghost predicate LatestCut(f: Flow, events: seq<Event>, j: nat, k: nat)
    requires j < k <= |events|
  {
    && UndoableCut(f, events, j)
    && forall i | j < i < k :: !UndoableCut(f, events, i) && !events[i].Undone?
  }

  lemma CutPointStep(f: Flow, e: Event)
    ensures var cut := After(f, e).lastLossCut;
            if e.Lost? && e.undoable && !TooSoon(f, e.now, e.rtt) then cut == f.cwnd
            else cut == 0 || (cut == f.lastLossCut && !e.Undone?)
  {
  }

  lemma {:induction false} CutPointHasCause(f: Flow, events: seq<Event>, k: nat)
    requires k <= |events| && f.lastLossCut == 0
    ensures var cut := StateAt(f, events, k).lastLossCut;
            cut != 0 ==> exists j: nat | j < k :: LatestCut(f, events, j, k) && StateAt(f, events, j).cwnd == cut
  {
    if k == 0 {
    } else {
      CutPointHasCause(f, events, k - 1);
      var before := StateAt(f, events, k - 1);
      var cut := After(before, events[k - 1]).lastLossCut;
      CutPointStep(before, events[k - 1]);
      if UndoableCut(f, events, k - 1) {
        assert LatestCut(f, events, k - 1, k);
      } else if cut != 0 {
        assert before.lastLossCut == cut;
        var j: nat :| j < k - 1 && LatestCut(f, events, j, k - 1) && StateAt(f, events, j).cwnd == cut;
        assert LatestCut(f, events, j, k);
      }
    }
  }

  /** In every run, an undo that reverts something restores the window from just before the latest
      undoable cut, and only the first undo after a cut can. */
  lemma UndoRestoresLatestCut(f: Flow, events: seq<Event>, k: nat)
    requires Sound(f) && f.lastLossCut == 0
    requires k < |events| && events[k].Undone? && Undoes(StateAt(f, events, k))
    ensures exists j: nat | j < k :: LatestCut(f, events, j, k)
              && StateAt(f, events, k + 1).cwnd == StateAt(f, events, j).cwnd
  {
    CutPointHasCause(f, events, k);
    StateAtSound(f, events, k);
    var g := StateAt(f, events, k);
    var j: nat :| j < k && LatestCut(f, events, j, k) && StateAt(f, events, j).cwnd == g.lastLossCut;
    UndoBounds(g);
    assert StateAt(f, events, k + 1) == After(g, events[k]);
  }
}
