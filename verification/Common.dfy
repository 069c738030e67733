/** Vocabulary shared by every component: bytes, options, and byte streams cut into pieces. */
module Common {

  type Byte = b: int | 0 <= b < 256
  type Bytes = seq<Byte>

  datatype Option<+T> = None | Some(value: T)

  /** One millisecond; durations are nanoseconds. */
  const MS: int := 1_000_000

  /** What a peer buffers, in records: the negotiated widths. */
  const DELIVERY_WINDOW: nat := 512
  const DELIVERY_WINDOW_WIDE: nat := 4096

  function Elements<T>(s: seq<T>): set<T> { set x | x in s }

  function Min(a: int, b: int): int { if a < b then a else b }

  function Max(a: int, b: int): int { if a > b then a else b }

  /** Go's integer division, which truncates toward zero. */
  function GoDiv(a: int, b: int): int
    requires b > 0
  {
    if a >= 0 then a / b else -((-a) / b)
  }

  // ---- big-endian 16-bit numbers ----

  function Uint16Bytes(n: nat): (p: Bytes)
    requires n < 65536
    ensures |p| == 2
  {
    [n / 256, n % 256]
  }

  function BytesUint16(p: Bytes): nat
    requires |p| >= 2
  {
    (p[0] as int) * 256 + p[1]
  }

  // ---- byte streams in pieces ----

  /** The bytes of a list of pieces, in order. */
  function Flatten(pieces: seq<Bytes>): Bytes {
    if pieces == [] then [] else pieces[0] + Flatten(pieces[1..])
  }

  lemma {:induction false} FlattenConcat(a: seq<Bytes>, b: seq<Bytes>)
    ensures Flatten(a + b) == Flatten(a) + Flatten(b)
  {
    if a == [] {
      assert a + b == b;
    } else {
      calc {
        Flatten(a + b);
        { assert (a + b)[0] == a[0] && (a + b)[1..] == a[1..] + b; }
        a[0] + Flatten(a[1..] + b);
        { FlattenConcat(a[1..], b); }
        a[0] + (Flatten(a[1..]) + Flatten(b));
        Flatten(a) + Flatten(b);
      }
    }
  }

  lemma FlattenSnoc(a: seq<Bytes>, x: Bytes)
    ensures Flatten(a + [x]) == Flatten(a) + x
  {
    FlattenConcat(a, [x]);
    assert Flatten([x]) == x + Flatten([]);
  }

  /** A list of pieces splits anywhere into the bytes before and the bytes after. */
  lemma FlattenSplit(a: seq<Bytes>, k: nat)
    requires k <= |a|
    ensures Flatten(a) == Flatten(a[..k]) + Flatten(a[k..])
  {
    FlattenConcat(a[..k], a[k..]);
    assert a == a[..k] + a[k..];
  }

  // ---- least elements ----

  ghost predicate IsMin(s: set<nat>, m: nat) {
    m in s && forall x | x in s :: m <= x
  }

  lemma {:induction false} MinExists(s: set<nat>) returns (m: nat)
    requires s != {}
    ensures IsMin(s, m)
  {
    m :| m in s;
    var rest := s - {m};
    if rest != {} {
      var b := MinExists(rest);
      m := if m < b then m else b;
    }
    forall x | x in s ensures m <= x {
      if x !in rest { assert s == rest + {x}; }
    }
  }

  ghost function MinOf(s: set<nat>): (m: nat)
    requires s != {}
    ensures IsMin(s, m)
  {
    assert exists m :: IsMin(s, m) by { var m := MinExists(s); }
    var m :| IsMin(s, m);
    m
  }

  /** The n least elements of s, ascending (all of s, if it has no more). */
  ghost function LowestOf(s: set<nat>, n: nat): (r: seq<nat>)
    ensures |r| <= n
    ensures forall x | x in r :: x in s
  {
    if n == 0 || s == {} then [] else [MinOf(s)] + LowestOf(s - {MinOf(s)}, n - 1)
  }

  predicate Increasing(s: seq<int>) {
    forall i, j | 0 <= i < j < |s| :: s[i] < s[j]
  }

  lemma IncreasingSnoc(r: seq<nat>, x: nat)
    requires Increasing(r) && forall y | y in r :: y < x
    ensures Increasing(r + [x])
  {
    assert forall i | 0 <= i < |r| :: r[i] in r;
  }

  /** What LowestOf means: ascending, and everything passed over is larger than everything taken. */
  lemma {:induction false} LowestOfMeaning(s: set<nat>, n: nat)
    ensures var r := LowestOf(s, n);
            && Increasing(r)
            && |r| == Min(n, |s|)
            && forall x, y | x in r && y in s && y !in r :: x < y
  {
    if n > 0 && s != {} {
      var m := MinOf(s);
      var t := s - {m};
      var r := LowestOf(t, n - 1);
      LowestOfMeaning(t, n - 1);
      var all := [m] + r;
      forall j | 0 < j < |all| ensures all[0] < all[j] {
        assert all[j] == r[j - 1] && r[j - 1] in t;
      }
      assert all[1..] == r;
      forall x, y | x in all && y in s && y !in all ensures x < y {
        assert y in t && y !in r;
        assert x == m || x in r;
      }
    }
  }

  lemma HeadIsMin(s: set<nat>, r: seq<nat>)
    requires Increasing(r) && r != []
    requires forall x | x in r :: x in s
    requires forall x, y | x in r && y in s && y !in r :: x < y
    ensures s != {} && MinOf(s) == r[0]
  {
    assert r[0] in r;
    var m := MinOf(s);
    if m in r {
      var i :| 0 <= i < |r| && r[i] == m;
      assert !(r[0] < r[i]);
    }
  }

  /** An ascending list of at most n members of s, all below the members passed over, and passing over
      none if shorter than n, is the list of the n least ones. */
  lemma {:induction false} LowestOfUnique(s: set<nat>, r: seq<nat>, n: nat)
    requires Increasing(r) && |r| <= n
    requires forall x | x in r :: x in s
    requires forall x, y | x in r && y in s && y !in r :: x < y
    requires |r| < n ==> forall y | y in s :: y in r
    ensures r == LowestOf(s, n)
  {
    if r == [] {
      assert n > 0 ==> s == {};
    } else {
      HeadIsMin(s, r);
      TailIsLowest(s, r, n);
      LowestOfUnique(s - {r[0]}, r[1..], n - 1);
      calc {
        LowestOf(s, n);
        [r[0]] + LowestOf(s - {r[0]}, n - 1);
        [r[0]] + r[1..];
        r;
      }
    }
  }

  lemma TailIsLowest(s: set<nat>, r: seq<nat>, n: nat)
    requires Increasing(r) && r != []
    requires forall x | x in r :: x in s
    requires forall x, y | x in r && y in s && y !in r :: x < y
    requires |r| < n ==> forall y | y in s :: y in r
    ensures var t, q := s - {r[0]}, r[1..];
            && Increasing(q)
            && (forall x | x in q :: x in t)
            && (forall x, y | x in q && y in t && y !in q :: x < y)
            && (|r| < n ==> forall y | y in t :: y in q)
  {
    var t, q := s - {r[0]}, r[1..];
    forall x | x in q ensures x in t && x in r {
      var i :| 0 <= i < |q| && q[i] == x;
      assert x == r[i + 1] && r[0] < r[i + 1];
    }
    forall y | y in t && y !in q ensures y !in r {
      assert r == [r[0]] + q;
    }
  }

  lemma {:induction false} IncreasingCardinality(s: seq<int>)
    requires Increasing(s)
    ensures |Elements(s)| == |s|
  {
    if s == [] {
    } else {
      var n := |s| - 1;
      IncreasingCardinality(s[..n]);
      assert s == s[..n] + [s[n]];
      assert s[n] !in s[..n];
      assert Elements(s) == Elements(s[..n]) + {s[n]};
    }
  }

  lemma {:induction false} ProperSubsetSmaller(a: set<nat>, b: set<nat>)
    requires a < b
    ensures |a| < |b|
  {
    var x :| x in b && x !in a;
    var rest := b - {x};
    assert a <= rest;
    if a == rest {
    } else {
      ProperSubsetSmaller(a, rest);
    }
  }

  // ---- sorting ----

  predicate Nondecreasing(s: seq<int>) {
    forall i, j | 0 <= i < j < |s| :: s[i] <= s[j]
  }

  function Insert(x: int, s: seq<int>): (r: seq<int>)
    requires Nondecreasing(s)
    ensures Nondecreasing(r)
    ensures multiset(r) == multiset(s) + multiset{x}
    ensures r != [] && (r[0] == x || (s != [] && r[0] == s[0]))
  {
    if s == [] || x <= s[0] then [x] + s
    else
      assert s == [s[0]] + s[1..];
      [s[0]] + Insert(x, s[1..])
  }

  /** sort.Ints. */
  function Sort(s: seq<int>): (r: seq<int>)
    ensures Nondecreasing(r)
    ensures multiset(r) == multiset(s)
  {
    if s == [] then []
    else
      assert s == [s[0]] + s[1..];
      Insert(s[0], Sort(s[1..]))
  }

  lemma SortMembers(s: seq<int>)
    ensures |Sort(s)| == |s|
    ensures forall x :: x in Sort(s) <==> x in s
  {
    assert |multiset(Sort(s))| == |multiset(s)|;
    forall x ensures x in Sort(s) <==> x in s {
      assert x in multiset(Sort(s)) <==> x in multiset(s);
    }
  }

  predicate Distinct(s: seq<int>) {
    forall i, j | 0 <= i < j < |s| :: s[i] != s[j]
  }

  lemma {:induction false} InsertIncreasing(x: int, s: seq<int>)
    requires Increasing(s) && x !in s
    ensures Increasing(Insert(x, s))
  {
    if s != [] && x > s[0] {
      InsertIncreasing(x, s[1..]);
    }
  }

  /** Sorting a list without repetitions gives a strictly increasing one. */
  lemma {:induction false} SortIncreasing(s: seq<int>)
    requires Distinct(s)
    ensures Increasing(Sort(s))
  {
    if s == [] {
    } else {
      SortIncreasing(s[1..]);
      SortMembers(s[1..]);
      assert s[0] !in s[1..];
      InsertIncreasing(s[0], Sort(s[1..]));
    }
  }

  lemma SortNat(s: seq<nat>)
    ensures forall i | 0 <= i < |Sort(s)| :: Sort(s)[i] >= 0
  {
    SortMembers(s);
    forall i | 0 <= i < |Sort(s)| ensures Sort(s)[i] >= 0 {
      assert Sort(s)[i] in s;
    }
  }
}
