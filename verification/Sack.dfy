/** The selective-acknowledgement payload (tunnel/recovery.go, encodeSACKWords and the reading half of
    updateSACK): a 16-bit receive credit and up to 64 big-endian words of admission bits, trailing zero
    words trimmed. */
module Sack {

  import opened Common
  import opened Bits
  import Delivery

  const WORDS_NARROW: nat := 8
  const WORDS_WIDE: nat := 64
  const PAYLOAD_WIDE: nat := 2 + WORDS_WIDE * 8

  // ---- big-endian integers ----

  function Pow2(n: nat): nat {
    if n == 0 then 1 else 2 * Pow2(n - 1)
  }

  /** The number with the given bits, least significant first. */
  function NumberOf(bits: seq<bool>): (n: nat)
    ensures n < Pow2(|bits|)
  {
    if bits == [] then 0 else (if bits[0] then 1 else 0) + 2 * NumberOf(bits[1..])
  }

  predicate BitOf(n: nat, i: nat) {
    if i == 0 then n % 2 == 1 else BitOf(n / 2, i - 1)
  }

  lemma {:induction false} NumberBit(bits: seq<bool>, i: nat)
    requires i < |bits|
    ensures BitOf(NumberOf(bits), i) == bits[i]
  {
    Halve(bits);
    if i == 0 {
    } else {
      NumberBit(bits[1..], i - 1);
    }
  }

  lemma Halve(bits: seq<bool>)
    requires bits != []
    ensures NumberOf(bits) / 2 == NumberOf(bits[1..]) && (NumberOf(bits) % 2 == 1 <==> bits[0])
  {
  }

  function ByteOf(bits: seq<bool>): Byte
    requires |bits| == 8
  {
    assert Pow2(8) == 256 by { assert Pow2(4) == 16; }
    NumberOf(bits)
  }

  /** binary.BigEndian.PutUint64. */
  function WordBytes(w: Word): (p: Bytes)
    ensures |p| == 8
  {
    seq(8, j requires 0 <= j < 8 => ByteOf(w[56 - 8 * j..64 - 8 * j]))
  }

  /** binary.BigEndian.Uint64. */
  function BytesWord(p: Bytes): Word
    requires |p| == 8
  {
    seq(64, i requires 0 <= i < 64 => BitOf(p[7 - i / 8], i % 8))
  }

  lemma WordRoundTrip(w: Word)
    ensures BytesWord(WordBytes(w)) == w
  {
    var v := BytesWord(WordBytes(w));
    forall i | 0 <= i < 64 ensures v[i] == w[i] {
      var j := 7 - i / 8;
      NumberBit(w[56 - 8 * j..64 - 8 * j], i % 8);
    }
  }

  // ---- encoding ----

  /** How many of the first n words remain once trailing zero words are dropped. */
  function Trimmed(words: seq<Word>, n: nat): (k: nat)
    requires n <= |words|
    ensures k <= n
    ensures forall i | k <= i < n :: words[i] == Zero()
    ensures k > 0 ==> words[k - 1] != Zero()
  {
    if n > 0 && words[n - 1] == Zero() then Trimmed(words, n - 1) else n
  }

  function Body(words: seq<Word>): (p: Bytes)
    ensures |p| == 8 * |words|
  {
    if words == [] then [] else Body(words[..|words| - 1]) + WordBytes(words[|words| - 1])
  }

  function Encode(credit: nat, words: seq<Word>, maxWords: nat): (p: Bytes)
    requires credit < 65536 && maxWords <= |words|
    ensures |p| >= 2
  {
    Uint16Bytes(credit) + Body(words[..Trimmed(words, maxWords)])
  }

  /** encodeSACKWords. */
  method EncodeWords(credit: nat, words: seq<Word>, maxWords: nat) returns (p: Bytes)
    requires credit < 65536 && maxWords <= |words|
    ensures p == Encode(credit, words, maxWords)
  {
    var n: nat := maxWords;
    while n > 0 && words[n - 1] == Zero()
      invariant n <= maxWords
      invariant Trimmed(words, n) == Trimmed(words, maxWords)
    {
      n := n - 1;
    }
    var body := [];
    var i := 0;
    while i < n
      invariant 0 <= i <= n
      invariant body == Body(words[..i])
    {
      assert words[..i + 1][..i] == words[..i];
      body := body + WordBytes(words[i]);
      i := i + 1;
    }
    p := Uint16Bytes(credit) + body;
  }

  // ---- decoding ----

  /** The shape a feedback payload must have. */
  predicate WellShaped(p: Bytes) {
    2 <= |p| <= PAYLOAD_WIDE && (|p| - 2) % 8 == 0
  }

  function WordCount(p: Bytes): nat
    requires WellShaped(p)
  {
    (|p| - 2) / 8
  }

  function WordAt(p: Bytes, i: nat): Word
    requires WellShaped(p) && i < WordCount(p)
  {
    BytesWord(p[2 + 8 * i..10 + 8 * i])
  }

  /** The words of the bitmap. */
  function Words(p: Bytes): (words: seq<Word>)
    requires WellShaped(p)
    ensures |words| == WordCount(p) <= WORDS_WIDE
  {
    seq(WordCount(p), i requires 0 <= i < WordCount(p) => WordAt(p, i))
  }

  /** A bitmap relative to `ack` reports sequence n as buffered. */
  predicate Reports(ack: nat, words: seq<Word>, n: nat) {
    ack < n && n - ack - 1 < 64 * |words| && At(words, n - ack - 1)
  }

  /** The payload, sent with cumulative acknowledgement `ack`, reports sequence n as buffered. */
  predicate Claims(ack: nat, p: Bytes, n: nat) {
    WellShaped(p) && Reports(ack, Words(p), n)
  }

  /** Bit k of word i stands for sequence ack + 64i + k + 1. */
  lemma ReportsBit(ack: nat, words: seq<Word>, i: nat, k: nat)
    requires i < |words| && k < 64
    ensures Reports(ack, words, ack + 64 * i + k + 1) == words[i][k]
  {
    var b := 64 * i + k;
    assert b / 64 == i && b % 64 == k;
  }

  // ---- round trip ----

  lemma {:induction false} BodyWord(words: seq<Word>, i: nat)
    requires i < |words|
    ensures Body(words)[8 * i..8 * i + 8] == WordBytes(words[i])
  {
    var last := |words| - 1;
    var front := words[..last];
    if i == last {
      assert Body(words)[8 * i..8 * i + 8] == WordBytes(words[last]);
    } else {
      BodyWord(front, i);
      assert Body(words)[8 * i..8 * i + 8] == Body(front)[8 * i..8 * i + 8];
    }
  }

  /** Decoding an encoded payload gives back the credit and every word, the trimmed ones as zero. */
  lemma EncodeDecodes(credit: nat, words: seq<Word>, maxWords: nat)
    requires credit < 65536 && maxWords <= |words| && maxWords <= WORDS_WIDE
    ensures var p := Encode(credit, words, maxWords);
            && WellShaped(p)
            && BytesUint16(p) == credit
            && |Words(p)| <= maxWords
            && Words(p) <= words
            && (forall i | |Words(p)| <= i < maxWords :: words[i] == Zero())
            && (Words(p) != [] ==> words[|Words(p)| - 1] != Zero())
  {
    var n := Trimmed(words, maxWords);
    var p := Encode(credit, words, maxWords);
    var kept := words[..n];
    assert |p| == 2 + 8 * n;
    assert WordCount(p) == n;
    forall i | 0 <= i < n ensures WordAt(p, i) == words[i] {
      BodyWord(kept, i);
      assert p[2 + 8 * i..10 + 8 * i] == Body(kept)[8 * i..8 * i + 8];
      WordRoundTrip(words[i]);
    }
  }

  /** Snapshot, encode, read: with a bitmap wide enough for the delivery limit (8 words for 512 frames,
      64 for 4096) the sender reads back exactly the buffered sequences and the advertised credit. */
  lemma SnapshotRoundTrip(d: Delivery.Inbox, words: seq<Word>, credit: nat, maxWords: nat)
    requires Delivery.Valid(d) && Delivery.Snapshots(d, words, credit)
    requires maxWords <= WORDS_WIDE && d.limit <= 64 * maxWords
    ensures credit < 65536
    ensures var p := Encode(credit, words, maxWords);
            && WellShaped(p)
            && BytesUint16(p) == credit
            && forall n: nat :: Claims(d.delivered, p, n) <==> n in d.pending
  {
    Delivery.CreditFits(d);
    EncodeDecodes(credit, words, maxWords);
    var p := Encode(credit, words, maxWords);
    forall n: nat ensures Claims(d.delivered, p, n) <==> n in d.pending {
      if d.delivered < n <= d.delivered + 4096 {
        ReportIsBuffered(d, words, credit, Words(p), n);
      }
    }
  }

  /** A prefix of the snapshot's words reports what the snapshot describes. */
  lemma ReportIsBuffered(d: Delivery.Inbox, words: seq<Word>, credit: nat, kept: seq<Word>, n: nat)
    requires Delivery.Snapshots(d, words, credit)
    requires kept <= words
    requires d.delivered < n <= d.delivered + 4096
    ensures n - d.delivered - 1 < 64 * |kept| ==>
              (Reports(d.delivered, kept, n) <==> n <= d.delivered + d.limit && n in d.pending)
    ensures n <= d.delivered + d.limit && n in d.pending ==>
              words[(n - d.delivered - 1) / 64] != Zero()
  {
    var b := n - d.delivered - 1;
    var i, k := b / 64, b % 64;
    assert At(words, b) <==> b < d.limit && d.delivered + 1 + b in d.pending;
    if words[i] == Zero() {
      assert !words[i][k];
    }
    if b < 64 * |kept| {
      ReportsBit(d.delivered, kept, i, k);
      assert kept[i] == words[i];
    }
  }
}
