/** Sets of UDP ports held as merged intervals (tunnel/portrange.go). */
module PortRange {

  import opened Common

  const MAX_PORT := 65535

  datatype Interval = Interval(lo: int, hi: int)

  datatype Ports = Ports(intervals: seq<Interval>, total: nat)

  predicate Within(iv: Interval, port: int) { iv.lo <= port <= iv.hi }

  /** Sorted, non-empty, disjoint and not even adjacent. */
  predicate Separated(ivs: seq<Interval>) {
    && (forall i | 0 <= i < |ivs| :: ivs[i].lo <= ivs[i].hi)
    && (forall i, j | 0 <= i < j < |ivs| :: ivs[i].hi + 1 < ivs[j].lo)
  }

  predicate Member(ivs: seq<Interval>, port: int) {
    exists i | 0 <= i < |ivs| :: Within(ivs[i], port)
  }

  function Run(iv: Interval): (r: seq<int>)
    requires iv.lo <= iv.hi
    ensures |r| == iv.hi - iv.lo + 1
    ensures forall i | 0 <= i < |r| :: r[i] == iv.lo + i
  {
    seq(iv.hi - iv.lo + 1, i => iv.lo + i)
  }

  /** Every port, one by one. */
  function Expand(ivs: seq<Interval>): seq<int>
    requires Separated(ivs)
  {
    if ivs == [] then [] else Run(ivs[0]) + Expand(ivs[1..])
  }

  /** What NewPortRange builds, and also its zero value. */
  predicate Sound(pr: Ports) {
    Separated(pr.intervals) && pr.total == |Expand(pr.intervals)|
  }

  // ---- the expansion is the set, in order ----

  lemma MemberCons(ivs: seq<Interval>, port: int)
    requires ivs != []
    ensures Member(ivs, port) <==> Within(ivs[0], port) || Member(ivs[1..], port)
  {
    if Member(ivs[1..], port) {
      var i :| 0 <= i < |ivs[1..]| && Within(ivs[1..][i], port);
      assert Within(ivs[i + 1], port);
    }
    if Member(ivs, port) && !Within(ivs[0], port) {
      var i :| 0 <= i < |ivs| && Within(ivs[i], port);
      assert Within(ivs[1..][i - 1], port);
    }
  }

  lemma InRun(iv: Interval, port: int)
    requires iv.lo <= iv.hi
    ensures port in Run(iv) <==> Within(iv, port)
  {
    if Within(iv, port) {
      assert Run(iv)[port - iv.lo] == port;
    }
  }

  lemma {:induction false} ExpandMembers(ivs: seq<Interval>, port: int)
    requires Separated(ivs)
    ensures port in Expand(ivs) <==> Member(ivs, port)
  {
    if ivs == [] {
    } else {
      MemberCons(ivs, port);
      InRun(ivs[0], port);
      ExpandMembers(ivs[1..], port);
    }
  }

  lemma {:induction false} ExpandIncreasing(ivs: seq<Interval>)
    requires Separated(ivs)
    ensures Increasing(Expand(ivs))
  {
    if ivs == [] {
    } else {
      var first, rest := Run(ivs[0]), Expand(ivs[1..]);
      ExpandIncreasing(ivs[1..]);
      forall j | 0 <= j < |rest| ensures ivs[0].hi < rest[j] {
        assert rest[j] in rest;
        ExpandMembers(ivs[1..], rest[j]);
      }
    }
  }

  /** Two increasing lists with the same elements are the same list. */
  lemma {:induction false} IncreasingUnique(a: seq<int>, b: seq<int>)
    requires Increasing(a) && Increasing(b)
    requires forall x :: x in a <==> x in b
    ensures a == b
    decreases |a|
  {
    assert b == [] || b[0] in b;
    if a == [] {
    } else {
      assert a[0] in a && a[0] in b;
      assert b[0] in b && b[0] in a;
      assert a[0] == b[0];
      forall x ensures x in a[1..] <==> x in b[1..] {
        InTail(a, x);
        InTail(b, x);
      }
      IncreasingUnique(a[1..], b[1..]);
      assert a == [a[0]] + a[1..] && b == [b[0]] + b[1..];
    }
  }

  lemma InTail(s: seq<int>, x: int)
    requires Increasing(s) && s != []
    ensures x in s[1..] <==> x in s && x != s[0]
  {
    assert s == [s[0]] + s[1..];
  }

  /** The merged form is canonical: the set determines the intervals. */
  lemma {:induction false} Canonical(a: seq<Interval>, b: seq<Interval>)
    requires Separated(a) && Separated(b)
    requires forall port :: Member(a, port) <==> Member(b, port)
    ensures a == b
    decreases |a|
  {
    if a == [] || b == [] {
      assert b != [] ==> Within(b[0], b[0].lo) && Member(a, b[0].lo);
      assert a != [] ==> Within(a[0], a[0].lo) && Member(b, a[0].lo);
    } else {
      HeadsAgree(a, b);
      HeadsAgree(b, a);
      forall port ensures Member(a[1..], port) <==> Member(b[1..], port) {
        TailMember(a, port);
        TailMember(b, port);
      }
      Canonical(a[1..], b[1..]);
      assert a == [a[0]] + a[1..] && b == [b[0]] + b[1..];
    }
  }

  /** The first interval starts at the least port of the set and cannot stop short of the other's first gap. */
  lemma HeadsAgree(a: seq<Interval>, b: seq<Interval>)
    requires Separated(a) && Separated(b) && a != [] && b != []
    requires forall port :: Member(a, port) <==> Member(b, port)
    ensures b[0].lo <= a[0].lo && (b[0].lo == a[0].lo ==> a[0].hi <= b[0].hi)
  {
    assert Within(a[0], a[0].lo) && Member(a, a[0].lo);
    var i :| 0 <= i < |b| && Within(b[i], a[0].lo);
    var next := b[0].hi + 1;
    assert !Member(b, next);
    assert Within(a[0], next) ==> Member(a, next);
  }

  lemma TailMember(ivs: seq<Interval>, port: int)
    requires Separated(ivs) && ivs != []
    ensures Member(ivs[1..], port) <==> Member(ivs, port) && port > ivs[0].hi
  {
    MemberCons(ivs, port);
  }

  // ---- operations ----

  lemma MemberSnoc(ivs: seq<Interval>, iv: Interval, port: int)
    ensures Member(ivs + [iv], port) <==> Member(ivs, port) || Within(iv, port)
  {
    var all := ivs + [iv];
    if Member(ivs, port) {
      var i :| 0 <= i < |ivs| && Within(ivs[i], port);
      assert Within(all[i], port);
    }
    assert all[|ivs|] == iv;
  }

  ghost predicate SameSet(ivs: seq<Interval>, ports: seq<int>) {
    forall port :: Member(ivs, port) <==> port in ports
  }

  method NewPortRange(ports: seq<int>) returns (r: Option<Ports>)
    ensures r.Some? <==> ports != [] && forall p | p in ports :: 1 <= p <= MAX_PORT
    ensures r.Some? ==> Sound(r.value) && SameSet(r.value.intervals, ports)
    ensures r.Some? ==> r.value.total == |Elements(ports)|
  {
    if ports == [] { return None; }
    var sorted := Sort(ports);
    SortMembers(ports);
    EndsBound(sorted, ports);
    if sorted[0] < 1 || sorted[|sorted| - 1] > MAX_PORT { return None; }
    var ivs := Merged(sorted);
    assert SameSet(ivs, ports);
    var total := CountPorts(ivs);
    SetSize(ivs, ports);
    return Some(Ports(ivs, total));
  }

  lemma EndsBound(sorted: seq<int>, ports: seq<int>)
    requires sorted != [] && Nondecreasing(sorted) && forall p :: p in sorted <==> p in ports
    ensures (forall p | p in ports :: 1 <= p <= MAX_PORT) <==> 1 <= sorted[0] && sorted[|sorted| - 1] <= MAX_PORT
  {
    assert sorted[0] in sorted && sorted[|sorted| - 1] in sorted;
    forall p | p in ports ensures sorted[0] <= p <= sorted[|sorted| - 1] {
      var i :| 0 <= i < |sorted| && sorted[i] == p;
    }
  }

  lemma SetSize(ivs: seq<Interval>, ports: seq<int>)
    requires Separated(ivs) && SameSet(ivs, ports)
    ensures |Expand(ivs)| == |Elements(ports)|
  {
    ExpandIncreasing(ivs);
    IncreasingCardinality(Expand(ivs));
    forall port ensures port in Expand(ivs) <==> port in ports {
      ExpandMembers(ivs, port);
    }
    assert Elements(Expand(ivs)) == Elements(ports);
  }

  /** The merging loop. */
  method Merged(sorted: seq<int>) returns (ivs: seq<Interval>)
    requires sorted != [] && Nondecreasing(sorted)
    ensures Separated(ivs) && SameSet(ivs, sorted)
  {
    ivs := [];
    var lo, hi := sorted[0], sorted[0];
    var i := 1;
    assert SameSet([] + [Interval(lo, hi)], sorted[..1]) by {
      forall port ensures Member([] + [Interval(lo, hi)], port) <==> port in sorted[..1] {
        MemberSnoc([], Interval(lo, hi), port);
      }
    }
    while i < |sorted|
      invariant 1 <= i <= |sorted|
      invariant lo <= hi == sorted[i - 1]
      invariant Separated(ivs + [Interval(lo, hi)])
      invariant SameSet(ivs + [Interval(lo, hi)], sorted[..i])
    {
      var p := sorted[i];
      assert sorted[..i + 1] == sorted[..i] + [p];
      if p == hi {
        Repeated(ivs, lo, hi, sorted[..i]);
      } else if p == hi + 1 {
        Extended(ivs, lo, hi, sorted[..i]);
        StaysSeparated(ivs, lo, hi, p);
        hi := p;
      } else {
        Started(ivs + [Interval(lo, hi)], sorted[..i], p);
        StaysSeparated(ivs, lo, hi, p);
        ivs := ivs + [Interval(lo, hi)];
        lo, hi := p, p;
      }
      i := i + 1;
    }
    assert sorted[..i] == sorted;
    ivs := ivs + [Interval(lo, hi)];
  }

  lemma Repeated(ivs: seq<Interval>, lo: int, hi: int, done: seq<int>)
    requires lo <= hi && SameSet(ivs + [Interval(lo, hi)], done)
    ensures SameSet(ivs + [Interval(lo, hi)], done + [hi])
  {
    MemberSnoc(ivs, Interval(lo, hi), hi);
  }

  lemma Extended(ivs: seq<Interval>, lo: int, hi: int, done: seq<int>)
    requires lo <= hi && SameSet(ivs + [Interval(lo, hi)], done)
    ensures SameSet(ivs + [Interval(lo, hi + 1)], done + [hi + 1])
  {
    var wider, ports := ivs + [Interval(lo, hi + 1)], done + [hi + 1];
    forall port ensures Member(wider, port) <==> port in ports {
      MemberSnoc(ivs, Interval(lo, hi), port);
      MemberSnoc(ivs, Interval(lo, hi + 1), port);
    }
  }

  lemma Started(ivs: seq<Interval>, done: seq<int>, p: int)
    requires SameSet(ivs, done)
    ensures SameSet(ivs + [Interval(p, p)], done + [p])
  {
    forall port ensures Member(ivs + [Interval(p, p)], port) <==> port in done + [p] {
      MemberSnoc(ivs, Interval(p, p), port);
    }
  }

  /** Widening the last interval, or adding one beyond a gap, keeps the list separated. */
  lemma StaysSeparated(ivs: seq<Interval>, lo: int, hi: int, p: int)
    requires Separated(ivs + [Interval(lo, hi)]) && lo <= hi < p
    ensures Separated(ivs + [Interval(lo, p)])
    ensures hi + 1 < p ==> Separated(ivs + [Interval(lo, hi)] + [Interval(p, p)])
  {
    var cur := ivs + [Interval(lo, hi)];
    assert cur[|ivs|] == Interval(lo, hi);
    assert forall i | 0 <= i < |ivs| :: cur[i] == ivs[i] && ivs[i].hi + 1 < lo;
  }

  method CountPorts(ivs: seq<Interval>) returns (total: nat)
    requires Separated(ivs)
    ensures total == |Expand(ivs)|
  {
    total := 0;
    var k := 0;
    while k < |ivs|
      invariant 0 <= k <= |ivs|
      invariant total + |Expand(ivs[k..])| == |Expand(ivs)|
    {
      assert ivs[k..][1..] == ivs[k + 1..];
      total := total + (ivs[k].hi - ivs[k].lo + 1);
      k := k + 1;
    }
  }

  method Contains(pr: Ports, port: int) returns (r: bool)
    requires Sound(pr)
    ensures r <==> Member(pr.intervals, port)
  {
    var ivs := pr.intervals;
    var lo, hi := 0, |ivs| - 1;
    while lo <= hi
      invariant 0 <= lo <= hi + 1 <= |ivs|
      invariant forall k | 0 <= k < lo :: ivs[k].hi < port
      invariant forall k | hi < k < |ivs| :: port < ivs[k].lo
    {
      var mid := (lo + hi) / 2;
      var iv := ivs[mid];
      if port < iv.lo {
        hi := mid - 1;
      } else if port > iv.hi {
        lo := mid + 1;
      } else {
        assert Within(ivs[mid], port);
        return true;
      }
    }
    return false;
  }

  function Clamp(i: int, total: nat): (r: nat)
    requires total > 0
    ensures r < total
  {
    if i < 0 then 0 else if i >= total then total - 1 else i
  }

  lemma ExpandAt(ivs: seq<Interval>, k: nat, i: nat)
    requires Separated(ivs) && k < |ivs| && i < |Expand(ivs[k..])|
    ensures var n := ivs[k].hi - ivs[k].lo + 1;
            && (i < n ==> Expand(ivs[k..])[i] == ivs[k].lo + i)
            && (i >= n ==> i - n < |Expand(ivs[k + 1..])| && Expand(ivs[k..])[i] == Expand(ivs[k + 1..])[i - n])
  {
    assert ivs[k..][1..] == ivs[k + 1..];
  }

  method PortAt(pr: Ports, index: int) returns (port: int)
    requires Sound(pr)
    ensures port == if pr.total == 0 then 0 else Expand(pr.intervals)[Clamp(index, pr.total)]
  {
    if pr.total == 0 { return 0; }
    var i := index;
    if i < 0 { i := 0; }
    if i >= pr.total { i := pr.total - 1; }
    var ivs := pr.intervals;
    var k := 0;
    while k < |ivs|
      invariant 0 <= k <= |ivs|
      invariant 0 <= i < |Expand(ivs[k..])|
      invariant Expand(ivs[k..])[i] == Expand(ivs)[Clamp(index, pr.total)]
    {
      ExpandAt(ivs, k, i);
      var n := ivs[k].hi - ivs[k].lo + 1;
      if i < n { return ivs[k].lo + i; }
      i := i - n;
      k := k + 1;
    }
  }

  /** PortAt enumerates the set: strictly increasing, onto, and within range. */
  lemma EnumeratesSet(pr: Ports)
    requires Sound(pr)
    ensures Increasing(Expand(pr.intervals))
    ensures forall port :: port in Expand(pr.intervals) <==> Member(pr.intervals, port)
  {
    ExpandIncreasing(pr.intervals);
    forall port ensures port in Expand(pr.intervals) <==> Member(pr.intervals, port) {
      ExpandMembers(pr.intervals, port);
    }
  }
}
