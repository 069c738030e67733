/** The per-direction packet-number replay window (tunnel/server.go): 64 words of 64 bits slid by
    arbitrary distances, shown to answer like a plain set of packet numbers. */
module Replay {

  import opened Bits

  const WINDOW: nat := 4096
  const WORDS: nat := 64

  // ---- reference: a plain set ----

  /** Every number accepted and not rolled back since, and the highest number ever accepted (0
      before the first). */
  datatype Plain = Plain(high: nat, accepted: set<nat>)

  const EMPTY := Plain(0, {})

  predicate Fresh(p: Plain, n: nat) {
    n != 0 && n + WINDOW > p.high && n !in p.accepted
  }

  function AcceptPlain(p: Plain, n: nat): Plain {
    if Fresh(p, n) then Plain(if n > p.high then n else p.high, p.accepted + {n}) else p
  }

  function RemovePlain(p: Plain, n: nat): Plain {
    p.(accepted := p.accepted - {n})
  }

  predicate SeenPlain(p: Plain, n: nat) {
    n == 0 || n + WINDOW <= p.high || n in p.accepted
  }

  // ---- bitmaps ----

  /** b is a slid up by d: bit i of b is bit i-d of a, and the bits entering at the bottom are clear. */
  ghost predicate Slid(a: seq<Word>, b: seq<Word>, d: nat)
    requires |a| == |b| == WORDS
  {
    forall i | 0 <= i < WINDOW :: At(b, i) == (i >= d && At(a, i - d))
  }

  lemma SlidCompose(a: seq<Word>, b: seq<Word>, c: seq<Word>, d: nat, e: nat)
    requires |a| == |b| == |c| == WORDS
    requires Slid(a, b, d) && Slid(b, c, e)
    ensures Slid(a, c, d + e)
  {
    forall i | 0 <= i < WINDOW ensures At(c, i) == (i >= d + e && At(a, i - (d + e))) {
      assert At(c, i) == (i >= e && At(b, i - e));
    }
  }

  /** Word i after the word-by-word step of a slide by s, 0 < s <= 64. */
  function SlidWord(a: seq<Word>, s: nat, i: nat): Word
    requires |a| == WORDS && s <= 64 && i < WORDS
  {
    if i == 0 then Shl(a[0], s) else Or(Shl(a[i], s), Shr(a[i - 1], 64 - s))
  }

  function SlideWords(a: seq<Word>, s: nat): (b: seq<Word>)
    requires |a| == WORDS && s <= 64
    ensures |b| == WORDS && forall i | 0 <= i < WORDS :: b[i] == SlidWord(a, s, i)
  {
    seq(WORDS, i requires 0 <= i < WORDS => SlidWord(a, s, i))
  }

  lemma SlideWordsSlides(a: seq<Word>, s: nat)
    requires |a| == WORDS && s <= 64
    ensures Slid(a, SlideWords(a, s), s)
  {
    var b := SlideWords(a, s);
    forall i | 0 <= i < WINDOW ensures At(b, i) == (i >= s && At(a, i - s)) {
      var w, k := i / 64, i % 64;
      if k >= s {
        assert (i - s) / 64 == w && (i - s) % 64 == k - s;
      } else if w > 0 {
        assert (i - s) / 64 == w - 1 && (i - s) % 64 == k + 64 - s;
      }
    }
  }

  /** Sliding by a whole word moves words; the generic formula would compute the same thing, since
      `hi << 64` is 0 and `lo >> 0` is lo. */
  lemma WholeWordSlide(a: seq<Word>)
    requires |a| == WORDS
    ensures SlideWords(a, 64) == [Zero()] + a[..WORDS - 1]
  {
    var b, c := SlideWords(a, 64), [Zero()] + a[..WORDS - 1];
    forall i | 0 <= i < WORDS ensures b[i] == c[i] {
      if i == 0 {
        assert Shl(a[0], 64) == Zero();
      } else {
        assert b[i] == a[i - 1];
      }
    }
  }

  /** A slide by any distance, in steps of at most a word. */
  function SlideBy(a: seq<Word>, d: nat): (b: seq<Word>)
    requires |a| == WORDS
    ensures |b| == WORDS
    decreases d
  {
    if d == 0 then a
    else
      var step := if d > 64 then 64 else d;
      SlideBy(SlideWords(a, step), d - step)
  }

  lemma {:induction false} SlideBySlides(a: seq<Word>, d: nat)
    requires |a| == WORDS
    ensures Slid(a, SlideBy(a, d), d)
    decreases d
  {
    if d == 0 {
    } else {
      var step := if d > 64 then 64 else d;
      var b := SlideWords(a, step);
      SlideWordsSlides(a, step);
      SlideBySlides(b, d - step);
      SlidCompose(a, b, SlideBy(a, d), step, d - step);
    }
  }

  // ---- the filter ----

  /** The bitmap holds exactly the accepted numbers that are less than WINDOW behind the maximum. */
  ghost predicate Holds(p: Plain, seenMax: bool, maxSeq: nat, words: seq<Word>)
    requires |words| == WORDS
  {
    && seenMax == (p.high > 0)
    && (forall n | n in p.accepted :: 0 < n <= p.high)
    && (seenMax ==> maxSeq == p.high)
    && forall i | 0 <= i < WINDOW :: At(words, i) <==> p.high - i in p.accepted
  }

  class ReplayFilter {
    var maxSeq: nat
    var seenMax: bool
    const window: array<Word>

    ghost predicate Represents(p: Plain)
      reads this, window
    {
      window.Length == WORDS && Holds(p, seenMax, maxSeq, window[..])
    }

    constructor ()
      ensures Represents(EMPTY)
      ensures fresh(window)
    {
      window := new Word[WORDS](i => Zero());
      maxSeq := 0;
      seenMax := false;
      new;
      forall i | 0 <= i < WINDOW ensures !At(window[..], i) {
        assert window[..][i / 64] == Zero();
      }
    }

    method Seen(n: nat, ghost p: Plain) returns (seen: bool)
      requires Represents(p)
      ensures seen == SeenPlain(p, n)
      ensures seen <==> n == 0 || n + 4096 <= p.high || n in p.accepted
    {
      if n == 0 { return true; }
      if !seenMax { return false; }
      if n > maxSeq { return false; }
      var behind := maxSeq - n;
      if behind >= WINDOW { return true; }
      TestBit(window[behind / 64], behind % 64);
      assert At(window[..], behind) == window[behind / 64][behind % 64];
      seen := And(window[behind / 64], OneBit(behind % 64)) != Zero();
    }

    /** acceptLocked: accepts a number once, while it is less than WINDOW behind the maximum. */
    method Accept(n: nat, ghost p: Plain) returns (ok: bool)
      requires Represents(p)
      modifies this, window
      ensures Represents(AcceptPlain(p, n))
      ensures ok == Fresh(p, n)
      ensures ok <==> n != 0 && n + 4096 > p.high && n !in p.accepted
      ensures AcceptPlain(p, n).accepted == p.accepted + if ok then {n} else {}
      ensures AcceptPlain(p, n).high == if ok && n > p.high then n else p.high
    {
      if n == 0 { return false; }
      if !seenMax {
        ghost var before := window[..];
        seenMax := true;
        maxSeq := n;
        window[0] := OneBit(0);
        FirstNumber(p, n, before, window[..]);
        return true;
      }
      if n > maxSeq {
        ok := AcceptAhead(n, p);
      } else {
        ok := AcceptBehind(n, p);
      }
    }

    method AcceptAhead(n: nat, ghost p: Plain) returns (ok: bool)
      requires Represents(p) && seenMax && n > maxSeq
      modifies this, window
      ensures Represents(AcceptPlain(p, n))
      ensures ok == Fresh(p, n)
    {
      ghost var before := window[..];
      var diff := n - maxSeq;
      if diff >= WINDOW {
        Clear();
      } else {
        Slide(diff);
        SlideBySlides(before, diff);
      }
      maxSeq := n;
      ghost var slid := window[..];
      window[0] := Or(window[0], OneBit(0));
      RaisedMaximum(p, n, before, slid, window[..]);
      return true;
    }

    method AcceptBehind(n: nat, ghost p: Plain) returns (ok: bool)
      requires Represents(p) && seenMax && 0 < n <= maxSeq
      modifies window
      ensures Represents(AcceptPlain(p, n))
      ensures ok == Fresh(p, n)
    {
      var behind := maxSeq - n;
      if behind >= WINDOW { return false; }
      ghost var before := window[..];
      assert At(before, behind) <==> n in p.accepted;
      TestBit(window[behind / 64], behind % 64);
      if And(window[behind / 64], OneBit(behind % 64)) != Zero() { return false; }
      window[behind / 64] := Or(window[behind / 64], OneBit(behind % 64));
      SetOne(before, window[..], behind);
      return true;
    }

    /** Rolls back an accepted number that could not be retained. */
    method Remove(n: nat, ghost p: Plain)
      requires Represents(p)
      modifies window
      ensures Represents(RemovePlain(p, n))
      ensures RemovePlain(p, n) == Plain(p.high, p.accepted - {n})
    {
      if n == 0 { return; }
      if !seenMax || n > maxSeq || maxSeq - n >= WINDOW { return; }
      var behind := maxSeq - n;
      ghost var before := window[..];
      window[behind / 64] := AndNot(window[behind / 64], OneBit(behind % 64));
      ClearOne(before, window[..], behind);
    }

    /** The whole bitmap is forgotten. */
    method Clear()
      requires window.Length == WORDS
      modifies window
      ensures forall i | 0 <= i < WINDOW :: !At(window[..], i)
    {
      forall i | 0 <= i < WORDS {
        window[i] := Zero();
      }
      forall i | 0 <= i < WINDOW ensures !At(window[..], i) {
        assert window[..][i / 64] == Zero();
      }
    }

    /** The sliding loop: steps of at most 64, a whole-word step done by moving words. */
    method Slide(distance: nat)
      requires window.Length == WORDS
      modifies window
      ensures window[..] == SlideBy(old(window[..]), distance)
    {
      var diff: nat := distance;
      while diff > 0
        invariant diff <= distance
        invariant SlideBy(window[..], diff) == SlideBy(old(window[..]), distance)
      {
        var step := if diff > 64 then 64 else diff;
        if step == 64 {
          WholeWordSlide(window[..]);
          SlideWholeWord();
        } else {
          SlidePartWord(step);
        }
        diff := diff - step;
      }
    }

    method SlideWholeWord()
      requires window.Length == WORDS
      modifies window
      ensures window[..] == [Zero()] + old(window[..])[..WORDS - 1]
    {
      forall i | 1 <= i < WORDS {
        window[i] := window[i - 1];
      }
      window[0] := Zero();
    }

    method SlidePartWord(step: nat)
      requires window.Length == WORDS && step <= 64
      modifies window
      ensures window[..] == SlideWords(old(window[..]), step)
    {
      ghost var before := window[..];
      var i := WORDS - 1;
      while i > 0
        invariant 0 <= i < WORDS
        invariant window[..] == before[..i + 1] + SlideWords(before, step)[i + 1..]
      {
        assert window[i] == window[..][i] == before[i] && window[i - 1] == window[..][i - 1] == before[i - 1];
        window[i] := Or(Shl(window[i], step), Shr(window[i - 1], 64 - step));
        i := i - 1;
      }
      assert window[0] == window[..][0] == before[0];
      window[0] := Shl(window[0], step);
    }
  }

  lemma TestBit(w: Word, k: nat)
    requires k < 64
    ensures And(w, OneBit(k)) != Zero() <==> w[k]
  {
    if w[k] {
      assert And(w, OneBit(k))[k];
    } else {
      assert And(w, OneBit(k)) == Zero();
    }
  }

  lemma FirstNumber(p: Plain, n: nat, before: seq<Word>, after: seq<Word>)
    requires |before| == |after| == WORDS && n > 0
    requires exists m: nat :: Holds(p, false, m, before)
    requires after == before[0 := OneBit(0)]
    ensures Holds(AcceptPlain(p, n), true, n, after)
    ensures Fresh(p, n)
  {
    forall i | 0 <= i < WINDOW ensures At(after, i) <==> n - i in p.accepted + {n} {
      assert !At(before, i);
    }
  }

  lemma SetOne(before: seq<Word>, after: seq<Word>, b: nat)
    requires |before| == |after| == WORDS && b < WINDOW
    requires after == before[b / 64 := Or(before[b / 64], OneBit(b % 64))]
    ensures forall i | 0 <= i < WINDOW :: At(after, i) == (i == b || At(before, i))
  {
  }

  lemma ClearOne(before: seq<Word>, after: seq<Word>, b: nat)
    requires |before| == |after| == WORDS && b < WINDOW
    requires after == before[b / 64 := AndNot(before[b / 64], OneBit(b % 64))]
    ensures forall i | 0 <= i < WINDOW :: At(after, i) == (i != b && At(before, i))
  {
  }

  /** Raising the maximum to n: the bitmap is slid (or cleared) by the difference and bit 0 set. */
  lemma RaisedMaximum(p: Plain, n: nat, before: seq<Word>, slid: seq<Word>, after: seq<Word>)
    requires |before| == |slid| == |after| == WORDS
    requires p.high < n && Holds(p, true, p.high, before)
    requires if n - p.high >= WINDOW then forall i | 0 <= i < WINDOW :: !At(slid, i)
             else Slid(before, slid, n - p.high)
    requires after == slid[0 := Or(slid[0], OneBit(0))]
    ensures Holds(AcceptPlain(p, n), true, n, after)
    ensures Fresh(p, n)
  {
    SetOne(slid, after, 0);
    forall i | 0 <= i < WINDOW ensures At(after, i) <==> n - i in p.accepted + {n} {
      if n - p.high < WINDOW {
        var d := n - p.high;
        assert At(slid, i) == (i >= d && At(before, i - d));
        if i >= d {
          assert p.high - (i - d) == n - i;
        }
      }
    }
  }

  // ---- any sequence of calls ----

  datatype Op = Accept(n: nat) | Remove(n: nat) | Seen(n: nat)

  /** What a plain set answers to a call; Remove answers nothing. */
  function PlainAnswer(p: Plain, op: Op): seq<bool> {
    match op
    case Accept(n) => [Fresh(p, n)]
    case Remove(n) => []
    case Seen(n) => [SeenPlain(p, n)]
  }

  function After(p: Plain, op: Op): Plain {
    match op
    case Accept(n) => AcceptPlain(p, n)
    case Remove(n) => RemovePlain(p, n)
    case Seen(n) => p
  }

  function PlainAnswers(p: Plain, ops: seq<Op>): seq<bool>
    decreases |ops|
  {
    if ops == [] then [] else PlainAnswer(p, ops[0]) + PlainAnswers(After(p, ops[0]), ops[1..])
  }

  method Call(rf: ReplayFilter, op: Op, ghost p: Plain) returns (answer: seq<bool>)
    requires rf.Represents(p)
    modifies rf, rf.window
    ensures rf.Represents(After(p, op)) && answer == PlainAnswer(p, op)
  {
    match op {
      case Accept(n) =>
        var ok := rf.Accept(n, p);
        answer := [ok];
      case Remove(n) =>
        rf.Remove(n, p);
        answer := [];
      case Seen(n) =>
        var seen := rf.Seen(n, p);
        answer := [seen];
    }
  }

  /** A fresh filter answers every sequence of calls as the plain set does. */
  method Answers(ops: seq<Op>) returns (answers: seq<bool>)
    ensures answers == PlainAnswers(EMPTY, ops)
  {
    var rf := new ReplayFilter();
    ghost var p := EMPTY;
    answers := [];
    var i := 0;
    while i < |ops|
      invariant 0 <= i <= |ops|
      invariant rf.Represents(p)
      invariant fresh(rf) && fresh(rf.window)
      invariant PlainAnswers(EMPTY, ops) == answers + PlainAnswers(p, ops[i..])
    {
      assert ops[i..][1..] == ops[i + 1..];
      var answer := Call(rf, ops[i], p);
      p := After(p, ops[i]);
      answers := answers + answer;
      i := i + 1;
    }
  }

  // ---- what the window guarantees over whole runs ----

  function Run(p: Plain, ops: seq<Op>): Plain
    decreases |ops|
  {
    if ops == [] then p else Run(After(p, ops[0]), ops[1..])
  }

  /** Exactly-once: a number that was accepted is never accepted again, however many calls follow,
      unless it is rolled back first. */
  lemma {:induction false} AcceptedOnce(p: Plain, ops: seq<Op>, n: nat)
    requires !Fresh(p, n)
    requires forall op | op in ops :: op != Remove(n)
    ensures !Fresh(Run(p, ops), n)
    ensures Run(p, ops).high >= p.high
    decreases |ops|
  {
    if ops == [] {
    } else {
      assert ops[0] in ops;
      var rest := ops[1..];
      forall op | op in rest ensures op != Remove(n) { assert op in ops; }
      AcceptedOnce(After(p, ops[0]), rest, n);
    }
  }
}
