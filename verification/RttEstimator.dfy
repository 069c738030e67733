/** The retransmission-timeout estimator of section 2 of RFC 6298 as tunnel/rtt_estimator.go computes
    it, in nanoseconds with Go's truncating division, and the delay of a coalesced acknowledgement
    (tunnel/session_transport.go) measured against it. */
module RttEstimator {

  import opened Common

  const INITIAL_GUESS: int := 200 * MS
  const MIN_RTO: int := MS
  const MAX_RTO: int := 10_000 * MS
  const MAX_COALESCE: int := 100 * MS

  datatype Estimate = Estimate(srtt: int, rttvar: int, rto: int, hasData: bool)

  const INITIAL := Estimate(INITIAL_GUESS, INITIAL_GUESS / 2, INITIAL_GUESS, false)

  function Abs(d: int): int { if d < 0 then -d else d }

  function Clamp(x: int, lo: int, hi: int): int { if x < lo then lo else if x > hi then hi else x }

  /** The timeout that goes with a smoothed round trip and its variance. */
  function Timeout(srtt: int, rttvar: int): int {
    Clamp(Max(srtt + 4 * rttvar, 2 * srtt), MIN_RTO, MAX_RTO)
  }

  function Sampled(e: Estimate, rtt: int): Estimate {
    if rtt <= 0 then e
    else
      var srtt := if e.hasData then e.srtt + GoDiv(rtt - e.srtt, 8) else rtt;
      var rttvar := if e.hasData then e.rttvar + GoDiv(Abs(rtt - e.srtt) - e.rttvar, 4) else rtt / 2;
      Estimate(srtt, rttvar, Timeout(srtt, rttvar), true)
  }

  class Estimator {
    var srtt: int
    var rttvar: int
    var rto: int
    var hasData: bool

    function State(): Estimate
      reads this
    {
      Estimate(srtt, rttvar, rto, hasData)
    }

    constructor ()
      ensures State() == INITIAL
    {
      srtt := INITIAL_GUESS;
      rttvar := INITIAL_GUESS / 2;
      rto := INITIAL_GUESS;
      hasData := false;
    }

    method Sample(rtt: int)
      modifies this
      ensures State() == Sampled(old(State()), rtt)
    {
      if rtt <= 0 { return; }
      if !hasData {
        srtt := rtt;
        rttvar := rtt / 2;
        hasData := true;
      } else {
        var err := rtt - srtt;
        srtt := srtt + GoDiv(err, 8);
        rttvar := rttvar + GoDiv(Abs(err) - rttvar, 4);
      }
      Restart();
    }

    /** The timeout is recomputed and clamped. */
    method Restart()
      modifies this`rto
      ensures rto == Timeout(srtt, rttvar)
    {
      rto := srtt + 4 * rttvar;
      if rto < srtt * 2 { rto := srtt * 2; }
      if rto < MIN_RTO { rto := MIN_RTO; }
      if rto > MAX_RTO { rto := MAX_RTO; }
    }
  }

  // ---- any history of samples ----

  function History(samples: seq<int>): Estimate {
    if samples == [] then INITIAL else Sampled(History(samples[..|samples| - 1]), samples[|samples| - 1])
  }

  predicate Sound(e: Estimate) {
    && MIN_RTO <= e.rto <= MAX_RTO
    && 0 <= e.rttvar
    && (e.hasData ==> 0 < e.srtt && e.rto == Timeout(e.srtt, e.rttvar))
  }

  lemma SampledSound(e: Estimate, rtt: int)
    requires Sound(e)
    ensures Sound(Sampled(e, rtt))
  {
  }

  /** What one sample does, as section 2 of RFC 6298 has it: the first sets both averages; a later one takes the
      smoothed time an eighth of the way to it and the variation a quarter of the way to the deviation, rounded
      towards where they were; the timeout follows. */
  lemma SampleMeaning(e: Estimate, rtt: int)
    ensures var g := Sampled(e, rtt);
            && (rtt <= 0 ==> g == e)
            && (rtt > 0 ==> g.hasData)
            && (rtt > 0 ==> g.rto == Min(Max(Max(g.srtt + 4 * g.rttvar, 2 * g.srtt), 1_000_000), 10_000_000_000))
            && (rtt > 0 && !e.hasData ==> g.srtt == rtt && 2 * g.rttvar <= rtt <= 2 * g.rttvar + 1)
            && (rtt > 0 && e.hasData ==>
                  var gap := Abs(rtt - e.srtt);
                  && Abs(rtt - g.srtt) == gap - gap / 8
                  && Abs(gap - g.rttvar) == Abs(gap - e.rttvar) - Abs(gap - e.rttvar) / 4)
  {
  }

  /** Equal samples draw the smoothed time in: over n of them the gap keeps shrinking by an eighth, to under eight
      nanoseconds. */
  lemma {:induction false} SteadySamplesConverge(e: Estimate, rtt: int, n: nat)
    requires e.hasData && rtt > 0
    ensures var g := Repeated(e, rtt, n);
            && g.hasData
            && Abs(rtt - g.srtt) == Shrunk(Abs(rtt - e.srtt), n)
    decreases n
  {
    if n == 0 {
    } else {
      SampleMeaning(e, rtt);
      SteadySamplesConverge(Sampled(e, rtt), rtt, n - 1);
    }
  }

  function Repeated(e: Estimate, rtt: int, n: nat): Estimate
    decreases n
  {
    if n == 0 then e else Repeated(Sampled(e, rtt), rtt, n - 1)
  }

  /** A gap after n cuts by an eighth, each rounded down. */
  function Shrunk(gap: nat, n: nat): (rest: nat)
    ensures rest <= gap
    ensures gap >= 8 && n > 0 ==> rest < gap
    decreases n
  {
    if n == 0 then gap else Shrunk(gap - gap / 8, n - 1)
  }

  /** After any samples, including the discarded non-positive ones: the timeout lies in [1 ms, 10 s]
      and is at least twice the smoothed round trip wherever the cap allows it. */
  lemma {:induction false} TimeoutBounds(samples: seq<int>)
    ensures var e := History(samples);
            && Sound(e)
            && MIN_RTO <= e.rto <= MAX_RTO
            && (e.hasData ==> e.rto >= Min(2 * e.srtt, MAX_RTO))
            && (e.hasData <==> exists i | 0 <= i < |samples| :: samples[i] > 0)
  {
    if samples == [] {
    } else {
      var last := |samples| - 1;
      TimeoutBounds(samples[..last]);
      SampledSound(History(samples[..last]), samples[last]);
      if exists i | 0 <= i < |samples| :: samples[i] > 0 {
        var i :| 0 <= i < |samples| && samples[i] > 0;
        if i < last {
          assert samples[..last][i] > 0;
        }
      }
    }
  }

  /** The smoothed round trip stays within any bounds that hold for all the samples taken. */
  lemma {:induction false} SmoothedInHull(samples: seq<int>, lo: int, hi: int)
    requires forall i | 0 <= i < |samples| :: samples[i] > 0 ==> lo <= samples[i] <= hi
    ensures var e := History(samples); e.hasData ==> lo <= e.srtt <= hi
  {
    if samples == [] {
    } else {
      var last := |samples| - 1;
      SmoothedInHull(samples[..last], lo, hi);
    }
  }

  // ---- the acknowledgement delay ----

  /** How long a cumulative acknowledgement may wait for more to coalesce into it. */
  function CoalesceInterval(srtt: int): int {
    Clamp(GoDiv(srtt, 2), MS, MAX_COALESCE)
  }

  /** Half the smoothed time, kept between 1 ms and 100 ms. */
  lemma CoalesceMeaning(srtt: int)
    ensures var iv := CoalesceInterval(srtt);
            && 1_000_000 <= iv <= 100_000_000
            && (2_000_000 <= srtt <= 200_000_000 ==> 2 * iv <= srtt <= 2 * iv + 1)
            && (srtt < 2_000_000 ==> iv == 1_000_000) && (srtt > 200_000_000 ==> iv == 100_000_000)
  {
  }

  /** A delayed acknowledgement beats the sender's timeout (both ends measuring the same path) exactly
      when the round trip is at most 9.9 s and either at least 1 ms or jittery enough. In particular it
      always does between 1 ms and 9.9 s. */
  lemma AckBeatsTimeout(samples: seq<int>)
    ensures var e := History(samples);
            e.hasData ==>
              (e.srtt + CoalesceInterval(e.srtt) <= e.rto
               <==> e.srtt <= MAX_RTO - MAX_COALESCE && (e.srtt >= MS || 4 * e.rttvar >= MS))
  {
    TimeoutBounds(samples);
  }

  /** Below 1 ms a steady path has a delayed acknowledgement arrive after the timeout. */
  lemma SteadyFastPathIsLate()
    ensures exists samples ::
              var e := History(samples);
              e.hasData && e.srtt < MS && e.srtt + CoalesceInterval(e.srtt) > e.rto
  {
    var s1 := [400_000];
    var e1 := Sampled(INITIAL, 400_000);
    assert History(s1) == e1 by { assert s1[..0] == []; }
    var s2 := s1 + [400_000];
    assert s2[..1] == s1;
    assert History(s2) == Sampled(e1, 400_000) == Estimate(400_000, 150_000, 1_000_000, true);
  }

  /** Above 9.9 s the timeout's ceiling leaves no room for the delay, however regular the path. */
  lemma SlowPathIsLate()
    ensures exists samples ::
              var e := History(samples);
              e.hasData && e.srtt > MAX_RTO - MAX_COALESCE && e.srtt + CoalesceInterval(e.srtt) > e.rto
  {
    var s1 := [9_950 * MS];
    assert s1[..0] == [];
    assert History(s1) == Sampled(INITIAL, 9_950 * MS) == Estimate(9_950 * MS, 4_975 * MS, MAX_RTO, true);
  }
}
