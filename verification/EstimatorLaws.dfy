/**
  What the estimators of PPMd7 answer and learn: the start of a binary probability and of an escape share, the questions
  that share an estimator, and how far an answer moves it.
 */
module EstimatorLaws {
  import opened Words
  import opened PpmdContext
  import opened SymbolSpec
  import opened RangeSpec

  function Digit(b: bool): nat {
    if b then 1 else 0
  }

  // ---------- binary contexts ----------

  /** A probability moves to its end by one part in 128 of the distance, a fraction of three quarters rounded up. */
  lemma ProbMoves(p: nat)
    requires 0 < p < 0x4000
    ensures 0x4000 - p - 32 <= 128 * (ProbAfter0(p) - p) <= 0x4000 - p + 95
    ensures p - 95 <= 128 * (p - ProbAfter1(p)) <= p + 32
  {
    var m := Mean(p);
    assert 128 * m <= p + 32 < 128 * m + 128;
  }

  /** A missed probability says how much a new context keeps for the escape, from 25 down to 2 in steps of 1/16. */
  lemma MissKeeps(s: Side, i: nat)
    requires UsableSide(s) && i < |s.binSumm|
    ensures var p, e := MissBinary(s, i).binSumm[i], MissBinary(s, i).initEsc;
            && (e in {2, 3, 4, 5, 7, 9, 14, 25})
            && (25 <= e <==> p < 0x400) && (14 <= e <==> p < 0x800) && (9 <= e <==> p < 0xC00)
            && (7 <= e <==> p < 0x1000) && (5 <= e <==> p < 0x1800) && (4 <= e <==> p < 0x2400)
            && (3 <= e <==> p < 0x3000)
  {
    ProbStaysInside(s.binSumm[i]);
    var k := MissBinary(s, i).binSumm[i] / 0x400;
    assert k < 16;
    assert MissBinary(s, i).initEsc == EXP_ESCAPE[k];
  }

  /** The number of states of the suffix in four sizes. */
  function Size(n: nat): nat {
    if n <= 1 then 0 else if n == 2 then 1 else if n <= 11 then 2 else 3
  }

  /** The row of the frequency, and in it one digit for each thing looked at: no two questions meet by accident. */
  lemma BinaryQuestion(chain: seq<Context>, s: Side)
    requires UsableChain(chain) && |chain[0].states| == 1 && UsableSide(s)
    ensures 2 <= |chain| && 1 <= |chain[1].states| && 1 <= chain[0].states[0].freq
    ensures var i, one := BinIndex(chain, s), chain[0].states[0];
            && i / 64 == one.freq - 1
            && i % 2 == s.prevSuccess && i / 2 % 4 == Size(|chain[1].states|)
            && i / 8 % 2 == Digit(0x40 <= s.foundSymbol) && i / 16 % 2 == Digit(0x40 <= one.symbol)
            && i / 32 % 2 == Digit(s.runLength < 0)
  {
    BinIndexBound(chain, s);
    var one := chain[0].states[0];
    Digits(one.freq - 1, s.prevSuccess, Size(|chain[1].states|), Digit(0x40 <= s.foundSymbol),
           Digit(0x40 <= one.symbol), Digit(s.runLength < 0));
  }

  lemma Digits(row: nat, a: nat, b: nat, c: nat, d: nat, e: nat)
    requires a < 2 && b < 4 && c < 2 && d < 2 && e < 2
    ensures var i := 64 * row + a + 2 * b + 8 * c + 16 * d + 32 * e;
            && i / 64 == row && i % 2 == a && i / 2 % 4 == b && i / 8 % 2 == c && i / 16 % 2 == d && i / 32 % 2 == e
  {
    var i := 64 * row + a + 2 * b + 8 * c + 16 * d + 32 * e;
    DigitIs(i, 2, 32 * row + b + 4 * c + 8 * d + 16 * e, a);
    DigitIs(i / 2, 4, 8 * row + c + 2 * d + 4 * e, b);
    DigitIs(i, 8, 8 * row + c + 2 * d + 4 * e, a + 2 * b);
    DigitIs(i / 8, 2, 4 * row + d + 2 * e, c);
    DigitIs(i, 16, 4 * row + d + 2 * e, a + 2 * b + 8 * c);
    DigitIs(i / 16, 2, 2 * row + e, d);
    DigitIs(i, 32, 2 * row + e, a + 2 * b + 8 * c + 16 * d);
    DigitIs(i / 32, 2, row, e);
    DigitIs(i, 64, row, a + 2 * b + 8 * c + 16 * d + 32 * e);
  }

  lemma DigitIs(n: nat, d: nat, q: nat, r: nat)
    requires n == q * d + r && r < d
    ensures n / d == q && n % d == r
  {
    QuotientIs(n, d, q);
  }

  // ---------- escape estimators ----------

  /** Up to three the number itself; from then on m serves m - 2 numbers in a row. */
  lemma RowsGrow(i: nat)
    requires i < 256
    ensures var m := NS2Indx(i);
            if i < 3 then m == i else 3 <= m && (m - 3) * (m - 2) <= 2 * (i - 3) < (m - 2) * (m - 1)
  {
    if 3 <= i {
      var (m, k) := NS2Pair(i);
      assert (m - 2) * (m - 1) == (m - 2) * (m - 3) + 2 * (m - 2);
    }
  }

  /** Which estimator answers at a context: one for all at the full ones, else a row and a digit for each comparison. */
  lemma EscapeQuestion(chain: seq<Context>, level: nat, masked: nat, s: Side)
    requires UsableChain(chain) && UsableSide(s) && level < |chain| && masked < |chain[level].states|
    ensures var i, n, summ := SeeIndex(chain, level, masked, s), |chain[level].states|, chain[level].summFreq;
            if n == 256 then i == 400
            else
              && level + 1 < |chain| && i < 400
              && i / 16 == NS2Indx(n - masked - 1) && i % 2 == Digit(n - masked < |chain[level + 1].states| - n)
              && i / 2 % 2 == Digit(summ < 11 * n) && i / 4 % 2 == Digit(n < 2 * masked)
              && i / 8 % 2 == Digit(s.hiBitsFlag == 8)
  {
    assert Usable(chain[level]);
    var n := |chain[level].states|;
    if n != 256 {
      var nonMasked := n - masked;
      NS2IndxBound(nonMasked - 1);
      FourDigits(NS2Indx(nonMasked - 1), Digit(nonMasked < |chain[level + 1].states| - n),
                 Digit(chain[level].summFreq < 11 * n), Digit(masked > nonMasked), Digit(s.hiBitsFlag == 8));
    }
  }

  lemma FourDigits(row: nat, a: nat, b: nat, c: nat, d: nat)
    requires a < 2 && b < 2 && c < 2 && d < 2
    ensures var i := 16 * row + a + 2 * b + 4 * c + 8 * d;
            i / 16 == row && i % 2 == a && i / 2 % 2 == b && i / 4 % 2 == c && i / 8 % 2 == d
  {
    var i := 16 * row + a + 2 * b + 4 * c + 8 * d;
    DigitIs(i, 2, 8 * row + b + 2 * c + 4 * d, a);
    DigitIs(i / 2, 2, 4 * row + c + 2 * d, b);
    DigitIs(i, 4, 4 * row + c + 2 * d, a + 2 * b);
    DigitIs(i / 4, 2, 2 * row + d, c);
    DigitIs(i, 8, 2 * row + d, a + 2 * b + 4 * c);
    DigitIs(i / 8, 2, row, d);
    DigitIs(i, 16, row, a + 2 * b + 4 * c + 8 * d);
  }

  /** An answer is one part in 2^shift of the sum, at least 1, and is taken out of the sum; the dummy one answers 1. */
  lemma Asked(s: Side, i: nat)
    requires UsableSide(s) && i < |s.see|
    ensures var now := AskSee(s, i);
            && now.see == s.see[i := now.see[i]] && now == s.(see := now.see)
            && if i == 400 then EscFreq(s, i) == 1 && now == s
               else
                 var e := s.see[i];
                 var part := e.summ - now.see[i].summ;
                 && part * Pow2(e.shift) <= e.summ < (part + 1) * Pow2(e.shift)
                 && EscFreq(s, i) == (if part == 0 then 1 else part) && now.see[i] == e.(summ := e.summ - part)
  {
    var e := s.see[i];
    PartOf(e);
    var q, p := SeeShare(e), Pow2(e.shift);
    hide SeeShare;
    hide Pow2;
    if i != 400 {
      var part := e.summ - AskSee(s, i).see[i].summ;
      assert part == q;
    }
  }

  lemma PartOf(e: See)
    ensures SeeShare(e) <= e.summ && SeeShare(e) * Pow2(e.shift) <= e.summ < (SeeShare(e) + 1) * Pow2(e.shift)
  {
    hide Pow2;
    var p := Pow2(e.shift);
    var q := e.summ / p;
    assert e.summ == q * p + e.summ % p;
    assert (q + 1) * p == q * p + p;
  }

  /** Every 3 * 2^shift symbols found, an estimator slows down by half, and what it would answer stays the same. */
  lemma Slowed(s: Side, i: nat)
    requires UsableSide(s) && i < |s.see| && s.see[i].count < 256
    ensures var e, now := s.see[i], HitSee(s, i);
            && now.see == s.see[i := now.see[i]] && now == s.(see := now.see)
            && if 7 <= e.shift then now == s
               else if e.count != 1 then now.see[i] == e.(count := if e.count == 0 then 255 else e.count - 1)
               else
                 && now.see[i].shift == e.shift + 1 && now.see[i].count == 3 * Pow2(e.shift)
                 && (e.summ < 0x8000 ==> now.see[i].summ == 2 * e.summ && SeeShare(now.see[i]) == SeeShare(e))
  {
    var e := s.see[i];
    if e.shift < 7 && e.count == 1 {
      assert Pow2(e.shift) <= 64 by {
        SmallPower(e.shift);
      }
      var p, q := Pow2(e.shift), SeeShare(e);
      assert Pow2(e.shift + 1) == 2 * p;
      if e.summ < 0x8000 {
        HalfOf(e.summ, p);
      }
    }
  }

  lemma SmallPower(k: nat)
    requires k < 7
    ensures Pow2(k) <= 64
  {
    assert Pow2(0) == 1 && Pow2(1) == 2 && Pow2(2) == 4 && Pow2(3) == 8;
    assert Pow2(4) == 16 && Pow2(5) == 32 && Pow2(6) == 64;
  }

  lemma HalfOf(n: nat, p: nat)
    requires 0 < p
    ensures 2 * n / (2 * p) == n / p
  {
    var q := n / p;
    assert n == q * p + n % p;
    assert 2 * n == q * (2 * p) + 2 * (n % p);
    QuotientIs(2 * n, 2 * p, q);
  }

  lemma QuotientIs(n: nat, d: nat, q: nat)
    requires 0 < d && q * d <= n < q * d + d
    ensures n / d == q
  {
    var r := n / d;
    assert n == r * d + n % d;
    if q < r {
      MulLe(q + 1, r, d);
    } else if r < q {
      MulLe(r + 1, q, d);
    }
  }

  /** An escape adds the whole total, in 16 bits. */
  lemma Missed(s: Side, i: nat, total: nat)
    requires UsableSide(s) && i < |s.see| && total < 0x1_0000
    ensures var e, now := s.see[i], MissSee(s, i, total);
            && now.see == s.see[i := e.(summ := now.see[i].summ)] && now == s.(see := now.see)
            && now.see[i].summ == e.summ + total - if e.summ + total < 0x1_0000 then 0 else 0x1_0000
  {
  }
}
