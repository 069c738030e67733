/** Random choice of ports: the sparse shuffle that picks n paths (tunnel/spread.go) and the shuffle bag that
    deals one port per packet (tunnel/portrange.go). Random numbers are inputs. */
module PortPick {

  import opened Common
  import opened PortRange

  // ---- dense shuffle: the reference ----

  function Swap(a: seq<int>, i: nat, j: nat): (b: seq<int>)
    requires i < |a| && j < |a|
    ensures |b| == |a| && b[i] == a[j] && b[j] == a[i]
    ensures forall k | 0 <= k < |a| && k != i && k != j :: b[k] == a[k]
  {
    a[i := a[j]][j := a[i]]
  }

  /** A permutation of the positions. */
  predicate Permutes(a: seq<int>) {
    Distinct(a) && forall i | 0 <= i < |a| :: 0 <= a[i] < |a|
  }

  lemma SwapPermutes(a: seq<int>, i: nat, j: nat)
    requires Permutes(a) && i < |a| && j < |a|
    ensures Permutes(Swap(a, i, j))
  {
  }

  function Identity(total: nat): (a: seq<int>)
    ensures |a| == total && Permutes(a)
    ensures forall i | 0 <= i < total :: a[i] == i
  {
    seq(total, i => i)
  }

  /** Draw i picks a position from i on. */
  predicate Choices(choices: seq<nat>, total: nat) {
    |choices| <= total && forall i | 0 <= i < |choices| :: i + choices[i] < total
  }

  /** A full array after the first n swaps of the Fisher-Yates shuffle. */
  function Dense(choices: seq<nat>, total: nat, n: nat): (a: seq<int>)
    requires Choices(choices, total) && n <= |choices|
    ensures |a| == total && Permutes(a)
  {
    if n == 0 then Identity(total)
    else
      var before := Dense(choices, total, n - 1);
      SwapPermutes(before, n - 1, n - 1 + choices[n - 1]);
      Swap(before, n - 1, n - 1 + choices[n - 1])
  }

  /** The ports the full-array shuffle would pick: the first n positions after n swaps. */
  function DensePicks(choices: seq<nat>, ports: seq<int>, n: nat): (picks: seq<int>)
    requires Choices(choices, |ports|) && n <= |choices|
    ensures |picks| == n && forall i | 0 <= i < n :: picks[i] == ports[Dense(choices, |ports|, n)[i]]
  {
    var a := Dense(choices, |ports|, n);
    seq(n, i requires 0 <= i < n => ports[a[i]])
  }

  // ---- sparse shuffle ----

  /** What the swap map stands for: positions it does not mention still hold their own number. */
  function At(swaps: map<int, int>, i: int): int { if i in swaps then swaps[i] else i }

  predicate Stands(swaps: map<int, int>, a: seq<int>) {
    forall i | 0 <= i < |a| :: At(swaps, i) == a[i]
  }

  lemma SparseSwap(swaps: map<int, int>, a: seq<int>, i: nat, j: nat)
    requires Stands(swaps, a) && i < |a| && j < |a|
    ensures Stands(swaps[i := At(swaps, j)][j := At(swaps, i)], Swap(a, i, j))
  {
    var b, next := Swap(a, i, j), swaps[i := At(swaps, j)][j := At(swaps, i)];
    forall k | 0 <= k < |b| ensures At(next, k) == b[k] {
      assert At(swaps, k) == a[k];
    }
  }

  /** One more swap changes none of the earlier picks. */
  lemma OneMorePick(choices: seq<nat>, ports: seq<int>, n: nat)
    requires Choices(choices, |ports|) && n < |choices|
    ensures DensePicks(choices, ports, n + 1)
            == DensePicks(choices, ports, n) + [ports[Dense(choices, |ports|, n + 1)[n]]]
  {
  }

  /** Picks by swapping in a map, and agrees with swapping a full array for every sequence of choices. */
  method PickPortsFromRange(pr: Ports, n: int, choices: seq<nat>) returns (out: seq<int>)
    requires Sound(pr)
    requires 0 < n < pr.total ==> |choices| == n && Choices(choices, pr.total)
    ensures out == if n <= 0 then [] else if n >= pr.total then Expand(pr.intervals)
                   else DensePicks(choices, Expand(pr.intervals), n)
  {
    if n <= 0 || pr.total == 0 { return []; }
    if n >= pr.total {
      out := WholeRange(pr);
    } else {
      out := SparsePicks(pr, n, choices);
    }
  }

  method SparsePicks(pr: Ports, n: nat, choices: seq<nat>) returns (out: seq<int>)
    requires Sound(pr) && n < pr.total && |choices| == n && Choices(choices, pr.total)
    ensures out == DensePicks(choices, Expand(pr.intervals), n)
  {
    var swaps: map<int, int> := map[];
    out := [];
    var i := 0;
    while i < n
      invariant 0 <= i <= n
      invariant Stands(swaps, Dense(choices, pr.total, i))
      invariant out == DensePicks(choices, Expand(pr.intervals), i)
    {
      ghost var before := Dense(choices, pr.total, i);
      SparseSwap(swaps, before, i, i + choices[i]);
      OneMorePick(choices, Expand(pr.intervals), i);
      var picked;
      swaps, picked := SwapInMap(swaps, i, i + choices[i]);
      assert picked == before[i + choices[i]];
      var port := PortAt(pr, picked);
      out := out + [port];
      i := i + 1;
    }
  }

  method SwapInMap(swaps: map<int, int>, i: int, j: int) returns (next: map<int, int>, vj: int)
    ensures next == swaps[i := At(swaps, j)][j := At(swaps, i)] && vj == At(swaps, j)
  {
    var vi := i;
    if i in swaps { vi := swaps[i]; }
    vj := j;
    if j in swaps { vj := swaps[j]; }
    next := swaps[i := vj][j := vi];
  }

  method WholeRange(pr: Ports) returns (out: seq<int>)
    requires Sound(pr) && pr.total > 0
    ensures out == Expand(pr.intervals)
  {
    out := [];
    var i := 0;
    while i < pr.total
      invariant 0 <= i <= pr.total
      invariant out == Expand(pr.intervals)[..i]
    {
      var port := PortAt(pr, i);
      out := out + [port];
      i := i + 1;
    }
  }

  /** Whatever the random numbers, the picks are distinct ports of the range. */
  lemma PicksDistinct(pr: Ports, choices: seq<nat>)
    requires Sound(pr) && Choices(choices, pr.total)
    ensures var picks := DensePicks(choices, Expand(pr.intervals), |choices|);
            Distinct(picks) && forall p | p in picks :: Member(pr.intervals, p)
  {
    var ports, n := Expand(pr.intervals), |choices|;
    var picks, a := DensePicks(choices, ports, n), Dense(choices, |ports|, n);
    EnumeratesSet(pr);
    forall i, j | 0 <= i < j < n ensures picks[i] != picks[j] {
      assert a[i] != a[j];
      assert ports[a[i]] != ports[a[j]];
    }
  }

  // ---- the shuffle bag ----

  const BAG_MAX := 4096
  const UINT64: nat := 0x1_0000_0000_0000_0000

  datatype Mode = Random | RoundRobin

  /** `bag` is None when ports are drawn independently: round-robin mode, an empty range or one over BAG_MAX. */
  datatype Selector = Selector(pr: Ports, mode: Mode, counter: nat, bag: Option<seq<int>>, pos: nat)

  /** rand.Shuffle: positions from the top down, each swapped with one at or below it. */
  predicate Draws(draws: seq<nat>, size: nat) {
    |draws| == size && forall i | 0 <= i < size :: draws[i] <= i
  }

  lemma SwapMultiset(a: seq<int>, i: nat, j: nat)
    requires i < |a| && j < |a|
    ensures multiset(Swap(a, i, j)) == multiset(a)
  {
    assert multiset(a[i := a[j]]) == multiset(a) - multiset{a[i]} + multiset{a[j]};
  }

  function Shuffled(bag: seq<int>, draws: seq<nat>, k: nat): (r: seq<int>)
    requires Draws(draws, |bag|) && k <= |bag|
    ensures |r| == |bag| && multiset(r) == multiset(bag)
    decreases k
  {
    if k <= 1 then bag
    else
      SwapMultiset(bag, k - 1, draws[k - 1]);
      Shuffled(Swap(bag, k - 1, draws[k - 1]), draws, k - 1)
  }

  method Shuffle(bag: seq<int>, draws: seq<nat>) returns (r: seq<int>)
    requires Draws(draws, |bag|)
    ensures r == Shuffled(bag, draws, |bag|)
  {
    r := bag;
    var i := |bag| - 1;
    while i > 0
      invariant -1 <= i < |bag| && |r| == |bag|
      invariant Shuffled(r, draws, i + 1) == Shuffled(bag, draws, |bag|)
    {
      r := Swap(r, i, draws[i]);
      i := i - 1;
    }
  }

  predicate SelectorSound(s: Selector) {
    && Sound(s.pr)
    && s.counter < UINT64
    && (s.bag.Some? ==> s.pr.total > 0 && s.pos <= |s.bag.value|
                        && multiset(s.bag.value) == multiset(Expand(s.pr.intervals)))
  }

  /** What one draw needs from the random source: a whole shuffle, or one index. */
  datatype Luck = Luck(draws: seq<nat>, index: nat)

  predicate Usable(s: Selector, luck: Luck) {
    if s.bag.Some? then Draws(luck.draws, |s.bag.value|) else luck.index < s.pr.total
  }

  lemma SameSize(a: seq<int>, b: seq<int>)
    requires multiset(a) == multiset(b)
    ensures |a| == |b|
  {
    assert |multiset(a)| == |multiset(b)|;
  }

  /** The position a round-robin counter stands for. */
  function Turn(counter: nat, total: nat): (i: nat)
    requires total > 0
    ensures i < total
  {
    counter % total
  }

  function RobinDealt(s: Selector): (r: (int, Selector))
    requires Sound(s.pr) && s.pr.total > 0
  {
    (Expand(s.pr.intervals)[Turn(s.counter, s.pr.total)], s.(counter := (s.counter + 1) % UINT64))
  }

  function BagDealt(s: Selector, draws: seq<nat>): (r: (int, Selector))
    requires SelectorSound(s) && s.bag.Some? && Draws(draws, |s.bag.value|)
    ensures SelectorSound(r.1)
  {
    SameSize(s.bag.value, Expand(s.pr.intervals));
    if s.pos >= |s.bag.value| then
      var bag := Shuffled(s.bag.value, draws, |s.bag.value|);
      (bag[0], s.(bag := Some(bag), pos := 1))
    else (s.bag.value[s.pos], s.(pos := s.pos + 1))
  }

  /** One draw: the port and the selector afterwards. */
  function Dealt(s: Selector, luck: Luck): (r: (int, Selector))
    requires SelectorSound(s)
    requires s.mode == Random && s.pr.total > 0 ==> Usable(s, luck)
    ensures SelectorSound(r.1)
  {
    if s.pr.total == 0 then (0, s)
    else if s.mode == RoundRobin then RobinDealt(s)
    else if s.bag.None? then (Expand(s.pr.intervals)[luck.index], s)
    else BagDealt(s, luck.draws)
  }

  class PortSelector {
    const pr: Ports
    const mode: Mode
    var counter: nat
    var bag: Option<seq<int>>
    var pos: nat

    function State(): Selector
      reads this
    {
      Selector(pr, mode, counter, bag, pos)
    }

    /** `draws` is the first shuffle's randomness, used when the range fits in a bag. */
    constructor (range: Ports, m: Mode, draws: seq<nat>)
      requires Sound(range)
      requires m == Random && 0 < range.total <= BAG_MAX ==> Draws(draws, range.total)
      ensures SelectorSound(State()) && pr == range && mode == m && counter == 0 && pos == 0
      ensures bag.Some? <==> m == Random && 0 < range.total <= BAG_MAX
    {
      pr, mode, counter, pos, bag := range, m, 0, 0, None;
      new;
      if m == Random && 0 < range.total <= BAG_MAX {
        var filled := FillBag(range, draws);
        bag := Some(filled);
      }
    }

    method Next(luck: Luck) returns (port: int)
      requires SelectorSound(State())
      requires mode == Random && pr.total > 0 ==> Usable(State(), luck)
      modifies this
      ensures (port, State()) == Dealt(old(State()), luck)
    {
      if pr.total == 0 { return 0; }
      if mode == RoundRobin {
        var i := counter;
        counter := (counter + 1) % UINT64;
        port := PortAt(pr, Turn(i, pr.total));
        return;
      }
      port := NextUniform(luck);
    }

    method NextUniform(luck: Luck) returns (port: int)
      requires SelectorSound(State()) && mode == Random && pr.total > 0 && Usable(State(), luck)
      modifies this
      ensures (port, State()) == Dealt(old(State()), luck)
    {
      if bag.None? {
        port := PortAt(pr, luck.index);
        return;
      }
      port := NextFromBag(luck.draws);
    }

    method NextFromBag(draws: seq<nat>) returns (port: int)
      requires SelectorSound(State()) && bag.Some? && Draws(draws, |bag.value|)
      modifies this
      ensures (port, State()) == BagDealt(old(State()), draws)
    {
      SameSize(bag.value, Expand(pr.intervals));
      if pos >= |bag.value| { Reshuffle(draws); }
      port := bag.value[pos];
      pos := pos + 1;
    }

    method Reshuffle(draws: seq<nat>)
      requires bag.Some? && Draws(draws, |bag.value|)
      modifies this
      ensures State() == old(State()).(bag := Some(Shuffled(old(bag).value, draws, |old(bag).value|)), pos := 0)
    {
      var shuffled := Shuffle(bag.value, draws);
      bag := Some(shuffled);
      pos := 0;
    }
  }

  method FillBag(pr: Ports, draws: seq<nat>) returns (bag: seq<int>)
    requires Sound(pr) && Draws(draws, pr.total)
    ensures multiset(bag) == multiset(Expand(pr.intervals))
  {
    var ports: seq<int> := [];
    var k := 0;
    while k < |pr.intervals|
      invariant 0 <= k <= |pr.intervals|
      invariant ports + Expand(pr.intervals[k..]) == Expand(pr.intervals)
    {
      OneMoreRun(ports, pr.intervals, k);
      ports := AppendRun(ports, pr.intervals[k]);
      k := k + 1;
    }
    assert ports + [] == ports;
    bag := Shuffle(ports, draws);
  }

  lemma OneMoreRun(ports: seq<int>, ivs: seq<Interval>, k: nat)
    requires Separated(ivs) && k < |ivs|
    ensures ports + Expand(ivs[k..]) == (ports + Run(ivs[k])) + Expand(ivs[k + 1..])
  {
    assert ivs[k..][1..] == ivs[k + 1..];
  }

  method AppendRun(before: seq<int>, iv: Interval) returns (ports: seq<int>)
    requires iv.lo <= iv.hi
    ensures ports == before + Run(iv)
  {
    ports := before;
    var p := iv.lo;
    while p <= iv.hi
      invariant iv.lo <= p <= iv.hi + 1
      invariant ports == before + Run(iv)[..p - iv.lo]
    {
      ports := ports + [p];
      p := p + 1;
    }
    assert Run(iv)[..p - iv.lo] == Run(iv);
  }

  // ---- rounds ----

  predicate AllDraw(lucks: seq<Luck>, size: nat) {
    forall i | 0 <= i < |lucks| :: Draws(lucks[i].draws, size)
  }

  /** The ports dealt from a bag, draw after draw. */
  function Round(s: Selector, lucks: seq<Luck>): seq<int>
    requires SelectorSound(s) && s.mode == Random && s.bag.Some?
    requires AllDraw(lucks, |s.bag.value|)
    decreases |lucks|
  {
    if lucks == [] then [] else [Dealt(s, lucks[0]).0] + Round(Dealt(s, lucks[0]).1, lucks[1..])
  }

  function AfterRound(s: Selector, lucks: seq<Luck>): (after: Selector)
    requires SelectorSound(s) && s.mode == Random && s.bag.Some?
    requires AllDraw(lucks, |s.bag.value|)
    ensures SelectorSound(after) && after.mode == Random && after.pr == s.pr
    ensures after.bag.Some? && |after.bag.value| == |s.bag.value|
    decreases |lucks|
  {
    if lucks == [] then s else AfterRound(Dealt(s, lucks[0]).1, lucks[1..])
  }

  lemma {:induction false} RestOfRound(s: Selector, lucks: seq<Luck>)
    requires SelectorSound(s) && s.mode == Random && s.bag.Some?
    requires AllDraw(lucks, |s.bag.value|)
    requires |lucks| == |s.bag.value| - s.pos
    ensures Round(s, lucks) == s.bag.value[s.pos..]
    ensures AfterRound(s, lucks) == s.(pos := |s.bag.value|)
    decreases |lucks|
  {
    if lucks == [] {
    } else {
      RestOfRound(Dealt(s, lucks[0]).1, lucks[1..]);
    }
  }

  /** From the start of a round, or from the end of the last one, the next draws hit every port exactly once,
      whatever the random numbers, and end a round. */
  lemma RoundIsPermutation(s: Selector, lucks: seq<Luck>)
    requires SelectorSound(s) && s.mode == Random && s.bag.Some?
    requires AllDraw(lucks, |s.bag.value|)
    requires |lucks| == s.pr.total && s.pos in {0, |s.bag.value|}
    ensures multiset(Round(s, lucks)) == multiset(Expand(s.pr.intervals))
    ensures AfterRound(s, lucks).pos == |s.bag.value|
  {
    SameSize(s.bag.value, Expand(s.pr.intervals));
    if s.pos == 0 {
      RestOfRound(s, lucks);
      assert s.bag.value[0..] == s.bag.value;
    } else {
      var next := Dealt(s, lucks[0]).1;
      RestOfRound(next, lucks[1..]);
      assert next.bag.value == [next.bag.value[0]] + next.bag.value[1..];
    }
  }

  /** The ports of one full round of draws after another. */
  function Rounds(s: Selector, rounds: seq<seq<Luck>>): (r: seq<seq<int>>)
    requires SelectorSound(s) && s.mode == Random && s.bag.Some?
    requires forall k | 0 <= k < |rounds| :: AllDraw(rounds[k], |s.bag.value|)
    ensures |r| == |rounds|
    decreases |rounds|
  {
    if rounds == [] then [] else [Round(s, rounds[0])] + Rounds(AfterRound(s, rounds[0]), rounds[1..])
  }

  /** Cut into pieces as long as the range, everything ever drawn is permutation after permutation of the range. */
  lemma {:induction false} EveryRoundIsPermutation(s: Selector, rounds: seq<seq<Luck>>, k: nat)
    requires SelectorSound(s) && s.mode == Random && s.bag.Some? && s.pos in {0, |s.bag.value|}
    requires forall k | 0 <= k < |rounds| :: AllDraw(rounds[k], |s.bag.value|)
    requires forall k | 0 <= k < |rounds| :: |rounds[k]| == s.pr.total
    requires k < |rounds|
    ensures multiset(Rounds(s, rounds)[k]) == multiset(Expand(s.pr.intervals))
    decreases k
  {
    RoundIsPermutation(s, rounds[0]);
    if k == 0 {
    } else {
      EveryRoundIsPermutation(AfterRound(s, rounds[0]), rounds[1..], k - 1);
    }
  }

  /** Every draw, in every mode, is a port of the range. */
  lemma DealsMembers(s: Selector, luck: Luck)
    requires SelectorSound(s) && s.pr.total > 0
    requires s.mode == Random ==> Usable(s, luck)
    ensures Member(s.pr.intervals, Dealt(s, luck).0)
  {
    var port := Dealt(s, luck).0;
    ExpandMembers(s.pr.intervals, port);
    if s.mode == Random && s.bag.Some? {
      var bag := Dealt(s, luck).1.bag.value;
      assert port in multiset(bag);
      assert multiset(bag) == multiset(Expand(s.pr.intervals));
    }
  }

  // ---- round robin ----

  function RobinDraws(s: Selector, n: nat): (draws: seq<int>)
    requires Sound(s.pr) && s.pr.total > 0
    ensures |draws| == n
    decreases n
  {
    if n == 0 then [] else [RobinDealt(s).0] + RobinDraws(RobinDealt(s).1, n - 1)
  }

  lemma {:induction false} RobinDrawAt(s: Selector, n: nat, i: nat)
    requires Sound(s.pr) && s.pr.total > 0
    requires i < n && s.counter + n <= UINT64
    ensures RobinDraws(s, n)[i] == Expand(s.pr.intervals)[Turn(s.counter + i, s.pr.total)]
    decreases n
  {
    if i == 0 {
    } else {
      var next := RobinDealt(s).1;
      assert next.counter == s.counter + 1;
      RobinDrawAt(next, n - 1, i - 1);
      assert next.counter + (i - 1) == s.counter + i;
    }
  }

  lemma ApartModulo(a: nat, b: nat, n: nat)
    requires a < b < a + n
    ensures Turn(a, n) != Turn(b, n)
  {
    var q := b / n - a / n;
    assert a == a / n * n + a % n && b == b / n * n + b % n;
    assert b - a == q * n + (b % n - a % n);
    if q <= 0 {
      assert q * n <= 0;
    } else {
      assert q * n >= n;
    }
  }

  /** As long as the 64-bit counter does not wrap, any stretch of draws as long as the range hits every port once. */
  lemma RobinCovers(s: Selector)
    requires Sound(s.pr) && s.pr.total > 0 && s.counter + s.pr.total <= UINT64
    ensures Distinct(RobinDraws(s, s.pr.total))
    ensures forall p | p in RobinDraws(s, s.pr.total) :: Member(s.pr.intervals, p)
  {
    var n, ports := s.pr.total, Expand(s.pr.intervals);
    var draws := RobinDraws(s, n);
    EnumeratesSet(s.pr);
    forall i | 0 <= i < n ensures draws[i] == ports[Turn(s.counter + i, n)] {
      RobinDrawAt(s, n, i);
    }
    DistinctTurns(s.counter, n, ports, draws);
  }

  lemma DistinctTurns(counter: nat, n: nat, ports: seq<int>, draws: seq<int>)
    requires n == |ports| == |draws| > 0 && Increasing(ports)
    requires forall i | 0 <= i < n :: draws[i] == ports[Turn(counter + i, n)]
    ensures Distinct(draws) && forall p | p in draws :: p in ports
  {
    forall i, j | 0 <= i < j < n ensures draws[i] != draws[j] {
      ApartModulo(counter + i, counter + j, n);
    }
  }
}
