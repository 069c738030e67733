/** 64-bit machine words, modelled as their 64 bits (index 0 is the least significant), with Go's
    operators on them, and runs of words read as one long bitmap. */
module Bits {

  type Word = w: seq<bool> | |w| == 64 witness seq(64, i => false)

  function Zero(): Word { seq(64, i => false) }

  /** `1 << k`. */
  function OneBit(k: nat): (w: Word)
    requires k < 64
  {
    seq(64, i => i == k)
  }

  /** `w << s`; like Go's, 0 from s = 64 on. */
  function Shl(w: Word, s: nat): Word {
    seq(64, i requires 0 <= i < 64 => i >= s && w[i - s])
  }

  /** `w >> s`; like Go's, 0 from s = 64 on. */
  function Shr(w: Word, s: nat): Word {
    seq(64, i requires 0 <= i < 64 => i + s < 64 && w[i + s])
  }

  function Or(v: Word, w: Word): Word {
    seq(64, i requires 0 <= i < 64 => v[i] || w[i])
  }

  function And(v: Word, w: Word): Word {
    seq(64, i requires 0 <= i < 64 => v[i] && w[i])
  }

  /** `v &^ w`. */
  function AndNot(v: Word, w: Word): Word {
    seq(64, i requires 0 <= i < 64 => v[i] && !w[i])
  }

  /** `w - 1`: the borrow runs up to the lowest set bit, and through the whole word if there is
      none. Bit i receives a borrow exactly when every bit below it is clear. */
  function Pred(w: Word): Word {
    seq(64, i requires 0 <= i < 64 => w[i] != NoneBelow(w, i))
  }

  predicate NoneBelow(w: Word, i: nat)
    requires i <= 64
  {
    forall j | 0 <= j < i :: !w[j]
  }

  /** bits.TrailingZeros64: the position of the lowest set bit, 64 for the zero word. */
  function TrailingZeros(w: Word, from: nat := 0): (k: nat)
    requires from <= 64
    ensures from <= k <= 64
    ensures k < 64 ==> w[k]
    ensures forall j | from <= j < k :: !w[j]
    decreases 64 - from
  {
    if from == 64 then 64 else if w[from] then from else TrailingZeros(w, from + 1)
  }

  /** bits.Len64: one more than the position of the highest set bit, 0 for the zero word. */
  function Len(w: Word, below: nat := 64): (n: nat)
    requires below <= 64
    ensures n <= below
    ensures n > 0 ==> w[n - 1]
    ensures forall j | n <= j < below :: !w[j]
  {
    if below == 0 then 0 else if w[below - 1] then below else Len(w, below - 1)
  }

  /** bits.OnesCount64. */
  function OnesCount(w: Word, below: nat := 64): (n: nat)
    requires below <= 64
    ensures n <= below
  {
    if below == 0 then 0 else OnesCount(w, below - 1) + if w[below - 1] then 1 else 0
  }

  /** `w & (w - 1)` clears the lowest set bit and nothing else. */
  lemma DropLowest(w: Word)
    requires w != Zero()
    ensures TrailingZeros(w) < 64
    ensures And(w, Pred(w)) == w[TrailingZeros(w) := false]
  {
    var k := TrailingZeros(w);
    assert w != Zero() ==> exists i :: 0 <= i < 64 && w[i] != Zero()[i];
    var d := And(w, Pred(w));
    forall i | 0 <= i < 64 ensures d[i] == w[k := false][i] {
      if i == k {
        assert NoneBelow(w, i);
      } else if i > k {
        assert !NoneBelow(w, i) by { assert w[k]; }
      }
    }
  }

  lemma {:induction false} FewerOnes(w: Word, k: nat, below: nat)
    requires k < 64 && w[k] && below <= 64
    ensures OnesCount(w[k := false], below) == OnesCount(w, below) - if k < below then 1 else 0
  {
    if below == 0 {
    } else {
      FewerOnes(w, k, below - 1);
    }
  }

  // ---- bitmaps ----

  /** Bit b of a run of words. */
  predicate At(words: seq<Word>, b: nat)
    requires b < 64 * |words|
  {
    words[b / 64][b % 64]
  }
}
