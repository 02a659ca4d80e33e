/**
  How PPMd7 codes one symbol: at MinContext, then after each escape at the next larger context of the suffix chain with
  the symbols already ruled out masked. Both directions are defined here, the decoder from thresholds alone.
 */
module SymbolSpec {
  import opened Words
  import opened RangeSpec
  import opened RangeDecoder
  import opened PpmdContext

  // ---------- adaptive side state ----------

  /** A secondary escape estimator: 16-bit sum, shift, and count to the next change of shift. */
  datatype See = See(summ: nat, shift: nat, count: nat)

  /** Everything beside the contexts that coding a symbol reads or changes. Estimator 400 is the dummy one. */
  datatype Side = Side(
    see: seq<See>, binSumm: seq<nat>, initEsc: nat, prevSuccess: nat, hiBitsFlag: nat, orderFall: nat,
    runLength: int, foundSymbol: Byte)

  const DUMMY: nat := 400

  ghost predicate UsableSide(s: Side) {
    && |s.see| == 401
    && (forall i :: 0 <= i < |s.see| ==> s.see[i].summ < 0x1_0000)
    && |s.binSumm| == 128 * 64
    && (forall i :: 0 <= i < |s.binSumm| ==> 0 < s.binSumm[i] < 0x4000)
    && s.prevSuccess < 2
    && s.hiBitsFlag in {0, 8}
  }

  // Tables filled by Ppmd7_Construct.

  function HB2Flag(symbol: nat): nat {
    if symbol < 0x40 then 0 else 8
  }

  function NS2BSIndx(i: nat): nat {
    if i == 0 then 0 else if i == 1 then 2 else if i < 11 then 4 else 6
  }

  /** The pair (m, k) of the table loop when it reaches entry i: m is stored, k entries are left for it. */
  function NS2Pair(i: nat): (r: (nat, nat))
    requires 3 <= i
    ensures 1 <= r.1 <= r.0 - 2
    ensures 2 * (i - 3) == (r.0 - 2) * (r.0 - 3) + 2 * (r.0 - 2 - r.1)
  {
    if i == 3 then (3, 1)
    else
      var (m, k) := NS2Pair(i - 1);
      if k == 1 then (m + 1, m - 1) else (m, k - 1)
  }

  function NS2Indx(i: nat): nat {
    if i < 3 then i else NS2Pair(i).0
  }

  /** The table stays within the 25 rows of estimators. */
  lemma NS2IndxBound(i: nat)
    requires i < 256
    ensures NS2Indx(i) < 25
  {
    if 3 <= i {
      Triangle(NS2Pair(i).0);
    }
  }

  lemma Triangle(m: nat)
    ensures 25 <= m ==> (m - 2) * (m - 3) >= 23 * 22
  {
    if 25 <= m {
      assert m * m >= 25 * m;
      assert (m - 2) * (m - 3) == m * m - 5 * m + 6;
    }
  }

  // ---------- binary contexts ----------

  function Mean(prob: nat): nat {
    (prob + 32) / 128
  }

  function ProbAfter0(prob: nat): nat {
    prob + 128 - Mean(prob)
  }

  function ProbAfter1(prob: nat): nat {
    if Mean(prob) <= prob then prob - Mean(prob) else 0
  }

  /** A probability never reaches 0 or 2^14, so a bit step always stays valid. */
  lemma ProbStaysInside(prob: nat)
    requires 0 < prob < 0x4000
    ensures 0 < ProbAfter0(prob) < 0x4000 && 0 < ProbAfter1(prob) < 0x4000
  {
  }

  const EXP_ESCAPE: seq<nat> := [25, 14, 9, 7, 5, 5, 4, 4, 4, 3, 3, 3, 2, 2, 2, 2]

  /** GetBinSumm also refreshes HiBitsFlag. */
  function LookBinary(s: Side): Side {
    s.(hiBitsFlag := HB2Flag(s.foundSymbol))
  }

  function BinIndex(chain: seq<Context>, s: Side): nat
    requires 2 <= |chain| && 1 <= |chain[0].states| && 1 <= chain[0].states[0].freq && 1 <= |chain[1].states|
  {
    var one := chain[0].states[0];
    64 * (one.freq - 1)
    + s.prevSuccess + NS2BSIndx(|chain[1].states| - 1) + HB2Flag(s.foundSymbol) + 2 * HB2Flag(one.symbol)
    + (if s.runLength < 0 then 0x20 else 0)
  }

  lemma BinIndexBound(chain: seq<Context>, s: Side)
    requires UsableChain(chain) && |chain[0].states| == 1 && UsableSide(s)
    ensures 2 <= |chain| && 1 <= |chain[1].states| && 1 <= chain[0].states[0].freq
    ensures BinIndex(chain, s) < |s.binSumm|
  {
    assert Usable(chain[0]);
    assert Usable(chain[1]);
  }

  function HitBinary(s: Side, i: nat): Side
    requires i < |s.binSumm|
  {
    s.(binSumm := s.binSumm[i := ProbAfter0(s.binSumm[i])])
  }

  function MissBinary(s: Side, i: nat): Side
    requires i < |s.binSumm|
  {
    var prob := ProbAfter1(s.binSumm[i]);
    s.(binSumm := s.binSumm[i := prob],
       initEsc := if prob / 0x400 < 16 then EXP_ESCAPE[prob / 0x400] else 0,
       prevSuccess := 0)
  }

  // ---------- escape estimators ----------

  /** Which estimator serves a context with `numMasked` symbols ruled out. */
  function SeeIndex(chain: seq<Context>, level: nat, numMasked: nat, s: Side): nat
    requires level < |chain| && numMasked < |chain[level].states|
  {
    var n := |chain[level].states|;
    if n == 256 || level + 1 == |chain| then DUMMY
    else
      var nonMasked := n - numMasked;
      16 * NS2Indx(nonMasked - 1)
      + (if nonMasked < |chain[level + 1].states| - n then 1 else 0)
      + (if chain[level].summFreq < 11 * n then 2 else 0)
      + (if numMasked > nonMasked then 4 else 0)
      + s.hiBitsFlag
  }

  lemma SeeIndexBound(chain: seq<Context>, level: nat, numMasked: nat, s: Side)
    requires level < |chain| && numMasked < |chain[level].states| && Usable(chain[level]) && UsableSide(s)
    ensures SeeIndex(chain, level, numMasked, s) < |s.see|
  {
    if |chain[level].states| != 256 {
      NS2IndxBound(|chain[level].states| - numMasked - 1);
    }
  }

  function Quotient(n: nat, p: nat): (q: nat)
    requires 0 < p
    ensures q <= n
  {
    var q := n / p;
    MulLe(1, p, q);
    q
  }

  /** The part of its sum an estimator spends on one question. */
  function SeeShare(e: See): nat {
    Quotient(e.summ, Pow2(e.shift))
  }

  function EscFreq(s: Side, i: nat): (r: nat)
    requires i < |s.see|
  {
    if i == DUMMY || SeeShare(s.see[i]) == 0 then 1 else SeeShare(s.see[i])
  }

  function AskSee(s: Side, i: nat): Side
    requires i < |s.see|
  {
    if i == DUMMY then s else s.(see := s.see[i := s.see[i].(summ := Less(s.see[i].summ, SeeShare(s.see[i])))])
  }

  function Less(a: nat, b: nat): nat {
    if b <= a then a - b else 0
  }

  /** A symbol was found: every so often the estimator halves its rate of change. */
  function HitSee(s: Side, i: nat): Side
    requires i < |s.see|
  {
    var e := s.see[i];
    var count := (e.count + 255) % 256;
    if 7 <= e.shift then s
    else if count != 0 then s.(see := s.see[i := e.(count := count)])
    else s.(see := s.see[i := See(2 * e.summ % 0x1_0000, e.shift + 1, 3 * Pow2(e.shift) % 256)])
  }

  function MissSee(s: Side, i: nat, total: nat): Side
    requires i < |s.see|
  {
    s.(see := s.see[i := s.see[i].(summ := (s.see[i].summ + total) % 0x1_0000)])
  }

  lemma SeeStaysUsable(s: Side, i: nat, total: nat)
    requires UsableSide(s) && i < |s.see|
    ensures 0 < EscFreq(s, i) < 0x1_0000
    ensures UsableSide(AskSee(s, i)) && UsableSide(HitSee(s, i)) && UsableSide(MissSee(s, i, total))
  {
  }

  // ---------- climbing the suffix chain ----------

  /** The next context with more symbols than were ruled out, or the end; one step of the order per link. */
  function Climb(chain: seq<Context>, level: nat, numMasked: nat, orderFall: nat): (r: (nat, nat))
    requires level < |chain|
    ensures level < r.0 <= |chain| && r.1 == orderFall + (r.0 - level)
    ensures r.0 < |chain| ==> |chain[r.0].states| != numMasked
    decreases |chain| - level
  {
    if level + 1 == |chain| then (|chain|, orderFall + 1)
    else if |chain[level + 1].states| == numMasked then Climb(chain, level + 1, numMasked, orderFall + 1)
    else (level + 1, orderFall + 1)
  }

  // ---------- searching a list of states ----------

  /** The place of a symbol, or the length. */
  function IndexOf(s: seq<State>, symbol: int): (r: nat)
    ensures r <= |s|
    ensures r < |s| ==> s[r].symbol == symbol
    ensures forall i :: 0 <= i < r ==> s[i].symbol != symbol
  {
    if s == [] then 0
    else
      var i := IndexOf(s[..|s| - 1], symbol);
      if i < |s| - 1 then i else if s[|s| - 1].symbol == symbol then |s| - 1 else |s|
  }

  /** A symbol is found among the visible states exactly when it occurs unmasked. */
  lemma IndexOfVisible(s: seq<State>, masked: set<int>, symbol: int)
    ensures var v := Visible(s, masked);
            IndexOf(v, symbol) < |v| <==> symbol in Symbols(s) && symbol !in masked
  {
    var v := Visible(s, masked);
    VisibleMembers(s, masked);
    if symbol in Symbols(s) && symbol !in masked {
      var k :| 0 <= k < |s| && s[k].symbol == symbol;
      assert s[k] in v;
    }
    var i := IndexOf(v, symbol);
    if i < |v| {
      assert v[i] in s;
    }
  }

  /** The state whose share of the total covers `count`, or the length when it lies in the escape. */
  function Locate(s: seq<State>, count: nat): (r: nat)
    ensures r <= |s|
    ensures r < |s| ==> SumFreq(s[..r]) <= count < SumFreq(s[..r + 1])
    ensures r == |s| <==> SumFreq(s) <= count
  {
    if s == [] then 0
    else if SumFreq(s) <= count then |s|
    else if SumFreq(s[..|s| - 1]) <= count then
      assert s[..|s|] == s;
      |s| - 1
    else
      var i := Locate(s[..|s| - 1], count);
      assert s[..|s| - 1][..i] == s[..i] && s[..|s| - 1][..i + 1] == s[..i + 1];
      i
  }

  /** Shares do not overlap, so a count inside one share locates it. */
  lemma LocateInside(s: seq<State>, count: nat, i: nat)
    requires i < |s| && SumFreq(s[..i]) <= count < SumFreq(s[..i]) + s[i].freq
    ensures Locate(s, count) == i
  {
    SumFreqAt(s, i);
    SumFreqPrefix(s, i + 1, |s|);
    assert s[..|s|] == s;
    var r := Locate(s, count);
    if r < i {
      SumFreqPrefix(s, r + 1, i);
    } else if i < r {
      SumFreqPrefix(s, i + 1, r);
    }
  }

  // ---------- one symbol ----------

  /** Which of the four update procedures the found state goes to. */
  datatype How = First | Later | Escaped | Binary

  datatype Result =
    | Found(level: nat, symbol: int, how: How, side: Side)
    | EndMarker(side: Side)
    | Corrupt(side: Side)

  /** The intervals a context offers: one per visible state, the rest for the escape. */
  function ShareStep(s: seq<State>, total: nat, i: nat): Step
    requires i <= |s|
  {
    if i < |s| then Symbol(SumFreq(s[..i]), s[i].freq, total)
    else Symbol(SumFreq(s), Less(total, SumFreq(s)), total)
  }

  lemma ShareStepValid(s: seq<State>, total: nat, i: nat)
    requires i <= |s| && FreqsIn(s, 1, 128) && SumFreq(s) < total <= 0x100_0000
    ensures ValidStep(ShareStep(s, total, i))
  {
    if i < |s| {
      SumFreqAt(s, i);
      SumFreqPrefix(s, i + 1, |s|);
      assert s[..|s|] == s;
    }
  }

  /** What is left to code at `next` after escaping from `level`. */
  function Left(chain: seq<Context>, level: nat, next: nat): seq<State>
    requires level < |chain| && next < |chain|
  {
    Visible(chain[next].states, Symbols(chain[level].states))
  }

  /** Where an escape leads: out of the chain, or to the states left at a larger context and its estimator. */
  datatype Stop =
    | End(side: Side)
    | At(next: nat, left: seq<State>, total: nat, e: nat, asked: Side)

  ghost predicate UsableStop(stop: Stop) {
    match stop
    case End(side) => UsableSide(side)
    case At(next, left, total, e, asked) =>
      && FreqsIn(left, 1, 128) && SumFreq(left) < total <= 0x100_0000
      && UsableSide(asked) && e < |asked.see|
      && UsableSide(HitSee(asked, e)) && UsableSide(MissSee(asked, e, total))
  }

  function NextStop(chain: seq<Context>, level: nat, side: Side): (r: Stop)
    requires level < |chain| && UsableChain(chain) && UsableSide(side)
    ensures UsableStop(r)
    ensures r.At? ==> level < r.next < |chain| && r.left == Left(chain, level, r.next)
  {
    var n := |chain[level].states|;
    var (next, order) := Climb(chain, level, n, side.orderFall);
    var up := side.(orderFall := order);
    if next == |chain| then End(up)
    else
      LeftFacts(chain, level, next);
      SeeIndexBound(chain, next, n, up);
      var e := SeeIndex(chain, next, n, up);
      SeeStaysUsable(up, e, 0);
      var left := Left(chain, level, next);
      var total := SumFreq(left) + EscFreq(up, e);
      SeeStaysUsable(AskSee(up, e), e, total);
      At(next, left, total, e, AskSee(up, e))
  }

  /** The place of a symbol given by the encoder. */
  function EncodeMasked(chain: seq<Context>, level: nat, side: Side, symbol: int): (r: (seq<Step>, Result))
    requires level < |chain| && UsableChain(chain) && UsableSide(side)
    ensures !r.1.Corrupt?
    decreases |chain| - level
  {
    match NextStop(chain, level, side)
    case End(up) => ([], EndMarker(up))
    case At(next, left, total, e, asked) =>
      var i := IndexOf(left, symbol);
      if i < |left| then ([ShareStep(left, total, i)], Found(next, symbol, Escaped, HitSee(asked, e)))
      else
        var (steps, result) := EncodeMasked(chain, next, MissSee(asked, e, total), symbol);
        ([ShareStep(left, total, i)] + steps, result)
  }

  /** A larger context has states left to offer. */
  lemma LeftFacts(chain: seq<Context>, level: nat, next: nat)
    requires level < next < |chain| && UsableChain(chain)
    requires |chain[next].states| != |chain[level].states|
    ensures |chain[level].states| < |chain[next].states| && Usable(chain[next])
    ensures |Left(chain, level, next)| == |chain[next].states| - |chain[level].states|
    ensures FreqsIn(Left(chain, level, next), 1, 128)
    ensures SumFreq(Left(chain, level, next)) <= 128 * 256
  {
    var inner, outer := chain[level].states, chain[next].states;
    Contained(chain, level, next);
    assert Usable(chain[level]) && Usable(chain[next]);
    CountSymbols(inner);
    CountSymbols(outer);
    SubsetSize(Symbols(inner), Symbols(outer));
    VisibleCount(outer, Symbols(inner));
    assert Symbols(outer) * Symbols(inner) == Symbols(inner);
    VisibleMembers(outer, Symbols(inner));
    forall i | 0 <= i < |Left(chain, level, next)|
      ensures 1 <= Left(chain, level, next)[i].freq <= 128
    {
      assert Left(chain, level, next)[i] in outer;
    }
    SumFreqBound(Left(chain, level, next), 128);
  }

  lemma {:induction false} Contained(chain: seq<Context>, i: nat, j: nat)
    requires i <= j < |chain| && UsableChain(chain)
    ensures Symbols(chain[i].states) <= Symbols(chain[j].states)
    decreases j - i
  {
    if i < j {
      Contained(chain, i, j - 1);
    }
  }

  /** MinContext has several states: the first is special to the update that follows. */
  function EncodeFirst(chain: seq<Context>, side: Side, symbol: int): (r: (seq<Step>, Result))
    requires UsableChain(chain) && UsableSide(side) && |chain[0].states| != 1
    ensures !r.1.Corrupt?
  {
    var c := chain[0];
    assert Usable(c);
    var i := IndexOf(c.states, symbol);
    var step := ShareStep(c.states, c.summFreq, i);
    if i == 0 then ([step], Found(0, symbol, First, side))
    else if i < |c.states| then ([step], Found(0, symbol, Later, side.(prevSuccess := 0)))
    else
      var (steps, result) := EncodeMasked(chain, 0, EscapeFirst(side), symbol);
      ([step] + steps, result)
  }

  /** MinContext has one state: a bit says whether it is the one. */
  function EncodeBinary(chain: seq<Context>, side: Side, symbol: int): (r: (seq<Step>, Result))
    requires UsableChain(chain) && UsableSide(side) && |chain[0].states| == 1
    ensures !r.1.Corrupt?
  {
    BinIndexBound(chain, side);
    var b := BinIndex(chain, side);
    var look := LookBinary(side);
    var prob := side.binSumm[b];
    ProbStaysInside(prob);
    if chain[0].states[0].symbol == symbol then ([Bit(prob, 0)], Found(0, symbol, Binary, HitBinary(look, b)))
    else
      var (steps, result) := EncodeMasked(chain, 0, MissBinary(look, b), symbol);
      ([Bit(prob, 1)] + steps, result)
  }

  /** The steps the encoder emits for a symbol (-1 for the end marker), and what it has found. */
  function Encode(chain: seq<Context>, side: Side, symbol: int): (r: (seq<Step>, Result))
    requires UsableChain(chain) && UsableSide(side)
    ensures !r.1.Corrupt?
  {
    if |chain[0].states| != 1 then EncodeFirst(chain, side, symbol) else EncodeBinary(chain, side, symbol)
  }

  function EscapeFirst(side: Side): Side {
    side.(prevSuccess := 0, hiBitsFlag := HB2Flag(side.foundSymbol))
  }

  // ---------- the decoder ----------

  predicate Ready(d: Registers) {
    SoundRegisters(d) && d.low == 0 && d.bottom == 0 && 0x100_0000 <= d.range
  }

  /** The registers after decoding share `i`. */
  function AfterShare(d: Registers, s: seq<State>, total: nat, i: nat, input: seq<Byte>): (r: Registers)
    requires Ready(d) && i <= |s| && FreqsIn(s, 1, 128) && SumFreq(s) < total <= 0x100_0000
    ensures Ready(r)
  {
    var step := ShareStep(s, total, i);
    ShareStepValid(s, total, i);
    DividedFits(d, total, step.start, step.size);
    After7z(Divide(d, total), step.start, step.size, input)
  }

  function DecodeMasked(chain: seq<Context>, level: nat, side: Side, d: Registers, input: seq<Byte>)
    : (r: (Result, Registers))
    requires level < |chain| && UsableChain(chain) && UsableSide(side) && Ready(d)
    ensures Ready(r.1) || r.0.Corrupt?
    decreases |chain| - level
  {
    match NextStop(chain, level, side)
    case End(up) => (EndMarker(up), d)
    case At(next, left, total, e, asked) =>
      var count := Threshold(d, total);
      var i := Locate(left, count);
      if i < |left| then
        (Found(next, left[i].symbol, Escaped, HitSee(asked, e)), AfterShare(d, left, total, i, input))
      else if total <= count then (Corrupt(asked), Divide(d, total))
      else DecodeMasked(chain, next, MissSee(asked, e, total), AfterShare(d, left, total, i, input), input)
  }

  function DecodeFirst(chain: seq<Context>, side: Side, d: Registers, input: seq<Byte>): (r: (Result, Registers))
    requires UsableChain(chain) && UsableSide(side) && |chain[0].states| != 1 && Ready(d)
    ensures Ready(r.1) || r.0.Corrupt?
  {
    var c := chain[0];
    assert Usable(c);
    var count := Threshold(d, c.summFreq);
    var i := Locate(c.states, count);
    if i == 0 then (Found(0, c.states[0].symbol, First, side), AfterShare(d, c.states, c.summFreq, 0, input))
    else if i < |c.states| then
      (Found(0, c.states[i].symbol, Later, side.(prevSuccess := 0)), AfterShare(d, c.states, c.summFreq, i, input))
    else if c.summFreq <= count then (Corrupt(side.(prevSuccess := 0)), Divide(d, c.summFreq))
    else DecodeMasked(chain, 0, EscapeFirst(side), AfterShare(d, c.states, c.summFreq, i, input), input)
  }

  /** The registers after decoding a bit. */
  function AfterBit(d: Registers, size0: nat, input: seq<Byte>): (r: Registers)
    requires Ready(d) && 0 < size0 < 0x4000
    ensures Ready(r)
  {
    AfterBit7z(d, size0, input)
  }

  function DecodeBinary(chain: seq<Context>, side: Side, d: Registers, input: seq<Byte>): (r: (Result, Registers))
    requires UsableChain(chain) && UsableSide(side) && |chain[0].states| == 1 && Ready(d)
    ensures Ready(r.1) || r.0.Corrupt?
  {
    BinIndexBound(chain, side);
    var b := BinIndex(chain, side);
    var look := LookBinary(side);
    var prob := side.binSumm[b];
    ProbStaysInside(prob);
    var next := AfterBit(d, prob, input);
    if Bit7z(d, prob) == 0 then (Found(0, chain[0].states[0].symbol, Binary, HitBinary(look, b)), next)
    else DecodeMasked(chain, 0, MissBinary(look, b), next, input)
  }

  function Decode(chain: seq<Context>, side: Side, d: Registers, input: seq<Byte>): (r: (Result, Registers))
    requires UsableChain(chain) && UsableSide(side) && Ready(d)
    ensures Ready(r.1) || r.0.Corrupt?
  {
    if |chain[0].states| != 1 then DecodeFirst(chain, side, d, input) else DecodeBinary(chain, side, d, input)
  }
}
