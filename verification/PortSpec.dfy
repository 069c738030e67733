/** Port specifications as text (tunnel/portrange.go): parsing, and printing a port set back. */
module PortSpec {

  import opened Common
  import opened PortRange

  // ---- strings and numbers, as Go's strings and strconv packages define them ----

  predicate IsSpace(c: char) {
    || c in {'\t', '\n', '\U{0B}', '\U{0C}', '\r', ' ', '\U{85}', '\U{A0}'}
    || c in {'\U{1680}', '\U{2028}', '\U{2029}', '\U{202F}', '\U{205F}', '\U{3000}'}
    || '\U{2000}' <= c <= '\U{200A}'
  }

  function TrimLeft(s: string): string {
    if s != "" && IsSpace(s[0]) then TrimLeft(s[1..]) else s
  }

  function TrimRight(s: string): string {
    if s != "" && IsSpace(s[|s| - 1]) then TrimRight(s[..|s| - 1]) else s
  }

  function TrimSpace(s: string): string { TrimRight(TrimLeft(s)) }

  /** The first position of c, or the length when there is none. */
  function IndexOf(s: string, c: char): (i: nat)
    ensures i <= |s|
    ensures i < |s| ==> s[i] == c
    ensures c !in s[..i]
  {
    if s == "" || s[0] == c then 0 else 1 + IndexOf(s[1..], c)
  }

  function Split(s: string, c: char): (parts: seq<string>)
    ensures parts != []
    decreases |s|
  {
    var i := IndexOf(s, c);
    if i == |s| then [s] else [s[..i]] + Split(s[i + 1..], c)
  }

  function Join(parts: seq<string>, c: char): string {
    if parts == [] then "" else if |parts| == 1 then parts[0] else parts[0] + [c] + Join(parts[1..], c)
  }

  predicate IsDigit(c: char) { '0' <= c <= '9' }

  predicate Digits(s: string) { forall i | 0 <= i < |s| :: IsDigit(s[i]) }

  function Value(s: string): nat
    requires Digits(s)
  {
    if s == "" then 0 else Value(s[..|s| - 1]) * 10 + (s[|s| - 1] as int - '0' as int)
  }

  /** Decimal digits with an optional sign. The original also refuses numbers beyond 64 bits; those are no ports
      either way. */
  function Atoi(s: string): Option<int> {
    if s == "" then None
    else if s[0] in {'+', '-'} then
      if s[1..] == "" || !Digits(s[1..]) then None
      else
        var v: int := Value(s[1..]);
        Some(if s[0] == '-' then -v else v)
    else if Digits(s) then Some(Value(s))
    else None
  }

  function Itoa(n: nat): (s: string)
    ensures s != "" && Digits(s)
  {
    var last := [(n % 10 + '0' as int) as char];
    if n < 10 then last else Itoa(n / 10) + last
  }

  // ---- parsing ----

  function RangeOf(lo: Option<int>, hi: Option<int>): (r: Option<Interval>)
    ensures r.Some? ==> 1 <= r.value.lo <= r.value.hi <= MAX_PORT
  {
    if lo.None? || hi.None? || lo.value < 1 || hi.value > MAX_PORT || lo.value > hi.value then None
    else Some(Interval(lo.value, hi.value))
  }

  /** One trimmed segment: a port or an inclusive range, or None for any error. */
  function ParseSegment(seg: string): (r: Option<Interval>)
    ensures r.Some? ==> 1 <= r.value.lo <= r.value.hi <= MAX_PORT
  {
    var i := IndexOf(seg, '-');
    if i < |seg| then
      RangeOf(Atoi(TrimSpace(seg[..i])), Atoi(TrimSpace(seg[i + 1..])))
    else
      var p := Atoi(seg);
      if p.None? || p.value < 1 || p.value > MAX_PORT then None else Some(Interval(p.value, p.value))
  }

  /** The ports of a run that are not yet listed. */
  function AddNew(ports: seq<int>, lo: int, hi: int): seq<int>
    decreases hi - lo
  {
    if lo > hi then ports else AddNew(if lo in ports then ports else ports + [lo], lo + 1, hi)
  }

  function Collect(segs: seq<string>, ports: seq<int>): Option<seq<int>>
    decreases |segs|
  {
    if segs == [] then Some(ports)
    else
      var iv := ParseSegment(TrimSpace(segs[0]));
      if iv.None? then None else Collect(segs[1..], AddNew(ports, iv.value.lo, iv.value.hi))
  }

  function Parse(spec: string): Option<seq<int>> {
    if TrimSpace(spec) == "" then None
    else
      var ports := Collect(Split(TrimSpace(spec), ','), []);
      if ports.None? then None else Some(Sort(ports.value))
  }

  method ParsePortRangeSpec(spec: string) returns (r: Option<seq<int>>)
    ensures r == Parse(spec)
  {
    var trimmed := TrimSpace(spec);
    if trimmed == "" { return None; }
    var ports: seq<int> := [];
    var segs := Split(trimmed, ',');
    var k := 0;
    while k < |segs|
      invariant 0 <= k <= |segs|
      invariant Collect(segs[k..], ports) == Collect(segs, [])
      invariant k > 0 ==> ports != []
    {
      assert segs[k..][0] == segs[k] && segs[k..][1..] == segs[k + 1..];
      var iv := ParseSegment(TrimSpace(segs[k]));
      if iv.None? { return None; }
      ports := AddRun(ports, iv.value.lo, iv.value.hi);
      k := k + 1;
    }
    return Some(Sort(ports));
  }

  method AddRun(before: seq<int>, lo: int, hi: int) returns (ports: seq<int>)
    requires lo <= hi
    ensures ports == AddNew(before, lo, hi) && ports != []
  {
    ports := before;
    var p := lo;
    while p <= hi
      invariant lo <= p <= hi + 1
      invariant AddNew(ports, p, hi) == AddNew(before, lo, hi)
      invariant p > lo ==> ports != []
    {
      if p !in ports { ports := ports + [p]; }
      p := p + 1;
    }
  }

  // ---- what parsing means ----

  lemma {:induction false} AddNewMembers(ports: seq<int>, lo: int, hi: int)
    requires Distinct(ports)
    ensures Distinct(AddNew(ports, lo, hi))
    ensures forall p :: p in AddNew(ports, lo, hi) <==> p in ports || lo <= p <= hi
    decreases hi - lo
  {
    if lo <= hi {
      AddNewMembers(if lo in ports then ports else ports + [lo], lo + 1, hi);
    }
  }

  /** Some segment of the specification covers the port. */
  predicate Covers(segs: seq<string>, port: int) {
    exists i | 0 <= i < |segs| :: SegmentCovers(segs[i], port)
  }

  predicate SegmentCovers(seg: string, port: int) {
    var iv := ParseSegment(TrimSpace(seg));
    iv.Some? && Within(iv.value, port)
  }

  predicate AllParse(segs: seq<string>) {
    forall i | 0 <= i < |segs| :: ParseSegment(TrimSpace(segs[i])).Some?
  }

  lemma CoversCons(segs: seq<string>, port: int)
    requires segs != []
    ensures Covers(segs, port) <==> SegmentCovers(segs[0], port) || Covers(segs[1..], port)
  {
    if Covers(segs[1..], port) {
      var i :| 0 <= i < |segs[1..]| && SegmentCovers(segs[1..][i], port);
      assert SegmentCovers(segs[i + 1], port);
    }
    if Covers(segs, port) && !SegmentCovers(segs[0], port) {
      var i :| 0 <= i < |segs| && SegmentCovers(segs[i], port);
      assert SegmentCovers(segs[1..][i - 1], port);
    }
  }

  lemma {:induction false} CollectMembers(segs: seq<string>, ports: seq<int>)
    requires Distinct(ports)
    ensures Collect(segs, ports).Some? <==> AllParse(segs)
    ensures Collect(segs, ports).Some? ==> Distinct(Collect(segs, ports).value)
    ensures Collect(segs, ports).Some? ==>
              forall p :: p in Collect(segs, ports).value <==> p in ports || Covers(segs, p)
    decreases |segs|
  {
    if segs == [] {
    } else {
      var iv := ParseSegment(TrimSpace(segs[0]));
      if iv.Some? {
        AddNewMembers(ports, iv.value.lo, iv.value.hi);
        CollectMembers(segs[1..], AddNew(ports, iv.value.lo, iv.value.hi));
        forall p ensures Covers(segs, p) <==> Within(iv.value, p) || Covers(segs[1..], p) {
          CoversCons(segs, p);
        }
      }
    }
  }

  /** A specification parses exactly when it is not blank and every segment is a port or a range; the result is
      strictly increasing and holds exactly the ports some segment covers. */
  lemma ParseMeaning(spec: string)
    ensures var segs := Split(TrimSpace(spec), ',');
            && (Parse(spec).Some? <==> TrimSpace(spec) != "" && AllParse(segs))
            && (Parse(spec).Some? ==>
                  && Increasing(Parse(spec).value)
                  && (forall p :: p in Parse(spec).value <==> Covers(segs, p)))
  {
    var segs := Split(TrimSpace(spec), ',');
    CollectMembers(segs, []);
    var ports := Collect(segs, []);
    if ports.Some? {
      SortIncreasing(ports.value);
      SortMembers(ports.value);
    }
  }

  // ---- printing ----

  function Format(iv: Interval): string
    requires 1 <= iv.lo <= iv.hi
  {
    if iv.lo == iv.hi then Itoa(iv.lo) else Itoa(iv.lo) + "-" + Itoa(iv.hi)
  }

  predicate Printable(ivs: seq<Interval>) {
    forall i | 0 <= i < |ivs| :: 1 <= ivs[i].lo <= ivs[i].hi <= MAX_PORT
  }

  function Formats(ivs: seq<Interval>): (parts: seq<string>)
    requires Printable(ivs)
    ensures |parts| == |ivs|
    ensures forall i | 0 <= i < |ivs| :: parts[i] == Format(ivs[i])
  {
    if ivs == [] then [] else [Format(ivs[0])] + Formats(ivs[1..])
  }

  method String(pr: Ports) returns (s: string)
    requires Printable(pr.intervals)
    ensures s == Join(Formats(pr.intervals), ',')
  {
    if pr.intervals == [] { return ""; }
    ghost var all := Formats(pr.intervals);
    var parts: seq<string> := [];
    var k := 0;
    while k < |pr.intervals|
      invariant 0 <= k <= |pr.intervals|
      invariant |parts| == k && forall i | 0 <= i < k :: parts[i] == all[i]
    {
      var part := Part(pr.intervals[k]);
      parts := parts + [part];
      k := k + 1;
    }
    assert parts == all;
    return Join(parts, ',');
  }

  method Part(iv: Interval) returns (part: string)
    requires 1 <= iv.lo <= iv.hi
    ensures part == Format(iv)
  {
    if iv.lo == iv.hi {
      part := Itoa(iv.lo);
    } else {
      part := Itoa(iv.lo) + "-" + Itoa(iv.hi);
    }
  }

  // ---- round trip ----

  /** Text without spaces is left alone by trimming. */
  lemma NoSpaces(s: string)
    requires forall i | 0 <= i < |s| :: !IsSpace(s[i])
    ensures TrimSpace(s) == s
  {
  }

  lemma {:induction false} ItoaValue(n: nat)
    ensures Value(Itoa(n)) == n
  {
    var s := Itoa(n);
    if n >= 10 {
      ItoaValue(n / 10);
      assert s[..|s| - 1] == Itoa(n / 10);
    }
  }

  lemma AtoiItoa(n: nat)
    ensures Atoi(Itoa(n)) == Some(n)
  {
    ItoaValue(n);
    assert IsDigit(Itoa(n)[0]);
  }

  lemma {:induction false} IndexOfMiddle(a: string, c: char, b: string)
    requires c !in a
    ensures IndexOf(a + [c] + b, c) == |a|
  {
    var s := a + [c] + b;
    if a == "" {
    } else {
      assert s[0] == a[0];
      assert s[1..] == a[1..] + [c] + b;
      IndexOfMiddle(a[1..], c, b);
    }
  }

  lemma {:induction false} IndexOfNone(s: string, c: char)
    requires c !in s
    ensures IndexOf(s, c) == |s|
  {
    if s == "" {
    } else {
      IndexOfNone(s[1..], c);
    }
  }

  lemma DigitsOnly(s: string)
    requires Digits(s)
    ensures TrimSpace(s) == s && '-' !in s && ',' !in s
  {
    assert forall i | 0 <= i < |s| :: IsDigit(s[i]);
    NoSpaces(s);
  }

  lemma PortRoundTrip(port: nat)
    requires 1 <= port <= MAX_PORT
    ensures ParseSegment(Itoa(port)) == Some(Interval(port, port))
  {
    DigitsOnly(Itoa(port));
    IndexOfNone(Itoa(port), '-');
    AtoiItoa(port);
  }

  // -- what a segment means, with or without blanks --

  predicate Blank(s: string) { forall i | 0 <= i < |s| :: IsSpace(s[i]) }

  lemma {:induction false} TrimLeftBlank(pad: string, s: string)
    requires Blank(pad)
    ensures TrimLeft(pad + s) == TrimLeft(s)
  {
    if pad == "" {
      assert pad + s == s;
    } else {
      assert (pad + s)[1..] == pad[1..] + s;
      TrimLeftBlank(pad[1..], s);
    }
  }

  lemma {:induction false} TrimRightBlank(s: string, pad: string)
    requires Blank(pad)
    ensures TrimRight(s + pad) == TrimRight(s)
    decreases |pad|
  {
    if pad == "" {
      assert s + pad == s;
    } else {
      assert (s + pad)[..|s + pad| - 1] == s + pad[..|pad| - 1];
      TrimRightBlank(s, pad[..|pad| - 1]);
    }
  }

  /** Blanks around a text that neither begins nor ends with one are trimmed away. */
  lemma TrimPadded(before: string, s: string, after: string)
    requires Blank(before) && Blank(after)
    requires s != "" && !IsSpace(s[0]) && !IsSpace(s[|s| - 1])
    ensures TrimSpace(before + s + after) == s
  {
    assert before + s + after == before + (s + after);
    TrimLeftBlank(before, s + after);
    assert TrimLeft(s + after) == s + after;
    TrimRightBlank(s, after);
  }

  lemma PaddedNumber(before: string, n: nat, after: string)
    requires Blank(before) && Blank(after)
    ensures TrimSpace(before + Itoa(n) + after) == Itoa(n)
  {
    assert IsDigit(Itoa(n)[0]) && IsDigit(Itoa(n)[|Itoa(n)| - 1]);
    TrimPadded(before, Itoa(n), after);
  }

  /** A number stands for its port, if it is one, whatever blanks surround it. */
  lemma PortMeans(before: string, n: nat, after: string)
    requires Blank(before) && Blank(after)
    ensures ParseSegment(TrimSpace(before + Itoa(n) + after))
            == if 1 <= n <= 65535 then Some(Interval(n, n)) else None
  {
    PaddedNumber(before, n, after);
    DigitsOnly(Itoa(n));
    IndexOfNone(Itoa(n), '-');
    AtoiItoa(n);
  }

  /** Two numbers around a dash stand for the ports between them, if they are ports in order, whatever blanks surround
      them. */
  lemma RangeMeans(lo: nat, a: string, b: string, hi: nat)
    requires Blank(a) && Blank(b)
    ensures ParseSegment((Itoa(lo) + a) + "-" + (b + Itoa(hi)))
            == if 1 <= lo <= hi <= 65535 then Some(Interval(lo, hi)) else None
  {
    NoDash(lo, a);
    AtDash(Itoa(lo) + a, b + Itoa(hi));
    ReadPadded(lo, a);
    ReadIndented(b, hi);
  }

  lemma ReadPadded(n: nat, pad: string)
    requires Blank(pad)
    ensures Atoi(TrimSpace(Itoa(n) + pad)) == Some(n)
  {
    assert "" + Itoa(n) + pad == Itoa(n) + pad;
    PaddedNumber("", n, pad);
    AtoiItoa(n);
  }

  lemma ReadIndented(pad: string, n: nat)
    requires Blank(pad)
    ensures Atoi(TrimSpace(pad + Itoa(n))) == Some(n)
  {
    assert pad + Itoa(n) + "" == pad + Itoa(n);
    PaddedNumber(pad, n, "");
    AtoiItoa(n);
  }

  lemma NoDash(n: nat, pad: string)
    requires Blank(pad)
    ensures '-' !in Itoa(n) + pad
  {
    DigitsOnly(Itoa(n));
  }

  lemma AtDash(left: string, right: string)
    requires '-' !in left
    ensures ParseSegment(left + "-" + right) == RangeOf(Atoi(TrimSpace(left)), Atoi(TrimSpace(right)))
  {
    var s := left + "-" + right;
    IndexOfMiddle(left, '-', right);
    assert s[..|left|] == left;
    assert s[|left| + 1..] == right;
  }

  lemma SplitCons(part: string, c: char, rest: string)
    requires c !in part
    ensures Split(part + [c] + rest, c) == [part] + Split(rest, c)
  {
    var s := part + [c] + rest;
    IndexOfMiddle(part, c, rest);
    assert s[..|part|] == part;
    assert s[|part| + 1..] == rest;
  }

  lemma {:induction false} SplitJoin(parts: seq<string>, c: char)
    requires parts != [] && forall i | 0 <= i < |parts| :: c !in parts[i]
    ensures Split(Join(parts, c), c) == parts
  {
    if |parts| == 1 {
      IndexOfNone(parts[0], c);
    } else {
      SplitJoin(parts[1..], c);
      SplitCons(parts[0], c, Join(parts[1..], c));
    }
  }

  lemma {:induction false} JoinTrimmed(parts: seq<string>)
    requires parts != []
    requires forall i | 0 <= i < |parts| :: parts[i] != "" && !SpaceIn(parts[i])
    ensures Join(parts, ',') != "" && !SpaceIn(Join(parts, ','))
  {
    if |parts| > 1 {
      JoinTrimmed(parts[1..]);
    }
  }

  predicate SpaceIn(s: string) { exists i | 0 <= i < |s| :: IsSpace(s[i]) }

  lemma FormatIsPlain(iv: Interval)
    requires 1 <= iv.lo <= iv.hi
    ensures Format(iv) != "" && !SpaceIn(Format(iv)) && ',' !in Format(iv)
  {
    var s := Format(iv);
    var lo, hi := Itoa(iv.lo), Itoa(iv.hi);
    assert forall i | 0 <= i < |lo| :: IsDigit(lo[i]);
    assert forall i | 0 <= i < |hi| :: IsDigit(hi[i]);
    assert forall i | 0 <= i < |s| :: IsDigit(s[i]) || s[i] == '-';
  }

  lemma SegmentRoundTrip(iv: Interval)
    requires 1 <= iv.lo <= iv.hi <= MAX_PORT
    ensures ParseSegment(TrimSpace(Format(iv))) == Some(iv)
  {
    FormatIsPlain(iv);
    NoSpaces(Format(iv));
    if iv.lo == iv.hi {
      PortRoundTrip(iv.lo);
    } else {
      assert Itoa(iv.lo) + "" == Itoa(iv.lo) && "" + Itoa(iv.hi) == Itoa(iv.hi);
      RangeMeans(iv.lo, "", "", iv.hi);
    }
  }

  /** Parsing what String prints gives the ports of the set back, in order. */
  lemma RoundTrip(pr: Ports)
    requires Sound(pr) && Printable(pr.intervals) && pr.intervals != []
    ensures Parse(Join(Formats(pr.intervals), ',')) == Some(Expand(pr.intervals))
  {
    var ivs := pr.intervals;
    var parts := Formats(ivs);
    var text := Join(parts, ',');
    forall i | 0 <= i < |ivs|
      ensures ',' !in parts[i] && parts[i] != "" && !SpaceIn(parts[i])
      ensures ParseSegment(TrimSpace(parts[i])) == Some(ivs[i])
    {
      SegmentRoundTrip(ivs[i]);
      FormatIsPlain(ivs[i]);
    }
    SplitJoin(parts, ',');
    JoinTrimmed(parts);
    NoSpaces(text);
    ParseMeaning(text);
    SameCover(ivs, parts);
    EnumeratesSet(pr);
    IncreasingUnique(Parse(text).value, Expand(ivs));
  }

  lemma SameCover(ivs: seq<Interval>, parts: seq<string>)
    requires |parts| == |ivs|
    requires forall i | 0 <= i < |ivs| :: ParseSegment(TrimSpace(parts[i])) == Some(ivs[i])
    ensures forall p :: Covers(parts, p) <==> Member(ivs, p)
  {
    forall p ensures Covers(parts, p) <==> Member(ivs, p) {
      if Covers(parts, p) {
        var i :| 0 <= i < |parts| && SegmentCovers(parts[i], p);
        assert Within(ivs[i], p);
      }
      if Member(ivs, p) {
        var i :| 0 <= i < |ivs| && Within(ivs[i], p);
        assert SegmentCovers(parts[i], p);
      }
    }
  }

  lemma BuiltIsPrintable(ivs: seq<Interval>, ports: seq<int>)
    requires Separated(ivs) && SameSet(ivs, ports)
    requires forall p | p in ports :: 1 <= p <= MAX_PORT
    ensures Printable(ivs)
  {
    forall i | 0 <= i < |ivs| ensures 1 <= ivs[i].lo <= ivs[i].hi <= MAX_PORT {
      assert Within(ivs[i], ivs[i].lo) && Member(ivs, ivs[i].lo);
      assert Within(ivs[i], ivs[i].hi) && Member(ivs, ivs[i].hi);
    }
  }

  /** Any list of ports, in any order and with repetitions, prints as text that parses to the same set. */
  method FormatPortList(ports: seq<int>) returns (s: string)
    ensures ports == [] || (exists p | p in ports :: p < 1 || p > MAX_PORT) ==> s == ""
    ensures ports != [] && (forall p | p in ports :: 1 <= p <= MAX_PORT) ==>
              && Parse(s).Some?
              && Increasing(Parse(s).value)
              && forall p :: p in Parse(s).value <==> p in ports
  {
    var pr := NewPortRange(ports);
    if pr.None? { return ""; }
    BuiltIsPrintable(pr.value.intervals, ports);
    s := String(pr.value);
    assert ports[0] in ports && Member(pr.value.intervals, ports[0]);
    RoundTrip(pr.value);
    EnumeratesSet(pr.value);
  }
}
