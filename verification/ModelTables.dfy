/** The tables of PPMd7: those filled once, and the model RestartModel starts from, fit for the coder. */
module ModelTables {
  import opened Words
  import opened PpmdContext
  import opened SymbolSpec
  import opened FrequencySpec
  import opened AdaptiveModel
  import RangeSpec
  import RangeDecoder
  import opened SymbolRoundTrip

  // ---------- tables filled once ----------

  /** The table loops of Construct behind the size classes: memset by memset, and the counting loop. */
  method Construct() returns (ns2bs: array<nat>, ns2: array<nat>, hb2: array<nat>)
    ensures ns2bs.Length == ns2.Length == hb2.Length == 256
    ensures forall i :: 0 <= i < 256 ==> ns2bs[i] == NS2BSIndx(i) && ns2[i] == NS2Indx(i) && hb2[i] == HB2Flag(i)
  {
    ns2bs, ns2, hb2 := new nat[256], new nat[256], new nat[256];
    ns2bs[0], ns2bs[1] := 0, 2;
    for i := 2 to 256
      modifies ns2bs
      invariant forall j :: 0 <= j < i ==> ns2bs[j] == NS2BSIndx(j)
    {
      ns2bs[i] := if i < 11 then 4 else 6;
    }
    FillCounting(ns2);
    for i := 0 to 256
      modifies hb2
      invariant forall j :: 0 <= j < i ==> hb2[j] == HB2Flag(j)
    {
      hb2[i] := if i < 0x40 then 0 else 8;
    }
  }

  method FillCounting(a: array<nat>)
    requires a.Length == 256
    modifies a
    ensures forall i :: 0 <= i < 256 ==> a[i] == NS2Indx(i)
  {
    a[0], a[1], a[2] := 0, 1, 2;
    var i, m, k := 3, 3, 1;
    while i < 256
      invariant 3 <= i <= 256 && NS2Pair(i) == (m, k)
      invariant forall j :: 0 <= j < i ==> a[j] == NS2Indx(j)
    {
      a[i] := m;
      k := k - 1;
      if k == 0 {
        m := m + 1;
        k := m - 2;
      }
      i := i + 1;
    }
  }

  // ---------- the model at the start ----------

  const INIT_BIN_ESC: seq<nat> := [0x3CDD, 0x1F3F, 0x59BF, 0x48F3, 0x64A1, 0x5ABC, 0x6632, 0x6051]

  /** Every symbol once. */
  function StartStates(n: nat): (s: seq<State>)
    requires n <= 256
    ensures |s| == n && forall i :: 0 <= i < n ==> s[i] == State(i, 1)
  {
    if n == 0 then [] else StartStates(n - 1) + [State(n - 1, 1)]
  }

  lemma {:induction false} StartSum(n: nat)
    requires n <= 256
    ensures SumFreq(StartStates(n)) == n
  {
    if n > 0 {
      StartSum(n - 1);
      SumFreqSnoc(StartStates(n - 1), State(n - 1, 1));
    }
  }

  function StartProb(j: nat): nat
    requires j < 0x2000
  {
    QuotientInside(INIT_BIN_ESC[j % 8], j / 64 + 2);
    0x4000 - INIT_BIN_ESC[j % 8] / (j / 64 + 2)
  }

  lemma StartProbInside(j: nat)
    requires j < 0x2000
    ensures 0 < StartProb(j) < 0x4000
  {
    QuotientInside(INIT_BIN_ESC[j % 8], j / 64 + 2);
  }

  lemma QuotientInside(e: nat, d: nat)
    requires 0x1F3F <= e <= 0x6632 && 2 <= d <= 129
    ensures 0 < e / d < 0x4000
  {
    var q := e / d;
    assert e == q * d + e % d;
    MulLe(2, d, q);
  }

  function StartSee(i: nat): See {
    if i < DUMMY then See(8 * (5 * (i / 16) + 10), 3, 4) else See(0, 7, 64)
  }

  /** The side state RestartModel and Init leave; the flag and the escape start value are kept from before. */
  function StartSide(maxOrder: nat, before: Side): Side {
    before.(see := seq(401, i requires 0 <= i < 401 => StartSee(i)),
            binSumm := seq(0x2000, j requires 0 <= j < 0x2000 => StartProb(j)),
            prevSuccess := 0, orderFall := maxOrder, runLength := StartRun(maxOrder), foundSymbol := 0)
  }

  function StartRun(maxOrder: nat): int {
    -(if maxOrder < 12 then maxOrder else 12) - 1
  }

  /** The order-0 context with all symbols once and one for the escape. */
  function StartModel<T>(maxOrder: nat, before: Side, memory: T): Model<T> {
    Model([Context(StartStates(256), 257)], StartSide(maxOrder, before), StartRun(maxOrder), memory)
  }

  /** A restarted model is fit, whatever was there before. */
  lemma StartFit<T>(maxOrder: nat, before: Side, memory: T)
    requires 0 < maxOrder && before.hiBitsFlag in {0, 8}
    ensures Fit(StartModel(maxOrder, before, memory))
  {
    hide StartSee;
    hide StartProb;
    StartSum(256);
    var side := StartSide(maxOrder, before);
    forall i | 0 <= i < |side.see| ensures side.see[i].summ < 0x1_0000 {
      SeeFits(i);
    }
    forall j | 0 <= j < |side.binSumm| ensures 0 < side.binSumm[j] < 0x4000 {
      StartProbInside(j);
    }
    assert Kept(StartStates(256), 257);
  }

  /**
    At the start an estimator of row i answers 5 i + 10, whatever else is asked, and slows down after four symbols. The
    order is the full one below the root's, and it takes a run of that many likely symbols, at most 12, and one more, to
    count from zero on.
   */
  lemma StartAnswers(maxOrder: nat, before: Side, i: nat, likely: nat)
    requires i < 400
    ensures var s := StartSide(maxOrder, before);
            && s.orderFall == maxOrder && s.prevSuccess == 0 && s.foundSymbol == 0
            && s.hiBitsFlag == before.hiBitsFlag && s.initEsc == before.initEsc
            && (s.runLength + likely < 0 <==> likely <= maxOrder && likely <= 12)
    ensures var s := StartSide(maxOrder, before);
            EscFreq(s, i) == 5 * (i / 16) + 10 && s.see[i].shift == 3 && s.see[i].count == 4
  {
    var e := StartSee(i);
    assert Pow2(0) == 1 && Pow2(1) == 2 && Pow2(2) == 4 && Pow2(3) == 8;
    assert e.summ == 8 * (5 * (i / 16) + 10);
    assert SeeShare(e) == 5 * (i / 16) + 10;
  }

  /**
    At the start the probability of a single symbol depends on its frequency and on the two lowest things looked at: what
    is missing to certainty is the start value over one more than the frequency.
   */
  lemma StartChances(f: nat, q: nat, c: nat)
    requires 1 <= f <= 128 && q < 8 && c < 8
    ensures 64 * (f - 1) + 8 * q + c < 0x2000
    ensures var rest := 0x4000 - StartProb(64 * (f - 1) + 8 * q + c);
            rest * (f + 1) <= INIT_BIN_ESC[c] < (rest + 1) * (f + 1)
  {
    var j := 64 * (f - 1) + 8 * q + c;
    Row(f - 1, 8 * q + c);
    Place(8 * (f - 1) + q, c);
    StartProbIs(j, f + 1);
    Between(INIT_BIN_ESC[c], f + 1);
  }

  lemma Row(row: nat, rest: nat)
    requires rest < 64
    ensures (64 * row + rest) / 64 == row
  {
  }

  lemma Place(row: nat, c: nat)
    requires c < 8
    ensures (8 * row + c) % 8 == c
  {
  }

  lemma StartProbIs(j: nat, d: nat)
    requires j < 0x2000 && d == j / 64 + 2
    ensures 0x4000 - StartProb(j) == INIT_BIN_ESC[j % 8] / d
  {
    QuotientInside(INIT_BIN_ESC[j % 8], d);
  }

  lemma Between(e: nat, d: nat)
    requires 0 < d
    ensures e / d * d <= e < (e / d + 1) * d
  {
  }

  lemma SeeFits(i: nat)
    requires i <= DUMMY
    ensures StartSee(i).summ < 0x1_0000
  {
  }

  /** From a restarted model, every message of bytes and end markers comes back, for every sound choice of successors. */
  lemma StartRoundTrip<T(!new)>(choice: Choice<T>, maxOrder: nat, before: Side, memory: T, message: seq<int>)
    requires AdaptiveModel.Sound(choice) && 0 < maxOrder && before.hiBitsFlag in {0, 8}
    requires forall i :: 0 <= i < |message| ==> -1 <= message[i] < 256
    ensures var p, m := Adaptive(choice), StartModel(maxOrder, before, memory);
            && StaysUsable(p, m, message) && RangeSpec.ValidSteps(EncodeAll(p, m, message))
            && var code := RangeSpec.Code(EncodeAll(p, m, message));
            var decoded := DecodeAll(p, m, |message|, RangeDecoder.Opened(code, 1, 0), code);
            |decoded| == |message| && forall i :: 0 <= i < |message| ==> SymbolOf(decoded[i]) == message[i]
  {
    hide StartModel;
    StartFit(maxOrder, before, memory);
    AdaptiveRoundTrip(choice, StartModel(maxOrder, before, memory), message);
  }

  /** The chain as it was learned. */
  function Stay<T>(): Choice<T> {
    Choice((m: Model<T>, r: Result) => false, (m: Model<T>, r: Result) => m)
  }

  /** With the root as its only context the codec needs no choice at all: every message comes back. */
  lemma OrderZeroRoundTrip(maxOrder: nat, before: Side, message: seq<int>)
    requires 0 < maxOrder && before.hiBitsFlag in {0, 8}
    requires forall i :: 0 <= i < |message| ==> -1 <= message[i] < 256
    ensures var p, m := Adaptive(Stay<()>()), StartModel(maxOrder, before, ());
            && StaysUsable(p, m, message) && RangeSpec.ValidSteps(EncodeAll(p, m, message))
            && var code := RangeSpec.Code(EncodeAll(p, m, message));
            var decoded := DecodeAll(p, m, |message|, RangeDecoder.Opened(code, 1, 0), code);
            |decoded| == |message| && forall i :: 0 <= i < |message| ==> SymbolOf(decoded[i]) == message[i]
  {
    assert AdaptiveModel.Sound(Stay<()>());
    StartRoundTrip(Stay<()>(), maxOrder, before, (), message);
  }

  /** The loops of RestartModel over the binary probabilities: every eighth entry of a row gets the same start value. */
  method FillProbs() returns (a: array<nat>)
    ensures a.Length == 0x2000 && fresh(a) && forall j :: 0 <= j < 0x2000 ==> a[j] == StartProb(j)
  {
    hide INIT_BIN_ESC;
    a := new nat[0x2000];
    for i := 0 to 128
      invariant forall j :: 0 <= j < 64 * i ==> a[j] == StartProb(j)
    {
      FillRow(a, i);
    }
  }

  /** The place within eight of an entry. */
  function Column(j: nat): nat {
    j % 8
  }

  method FillRow(a: array<nat>, i: nat)
    requires a.Length == 0x2000 && i < 128
    modifies a
    ensures forall j :: 64 * i <= j < 64 * i + 64 ==> a[j] == StartProb(j)
    ensures forall j :: 0 <= j < 64 * i ==> a[j] == old(a[j])
  {
    hide StartProb;
    for k := 0 to 8
      invariant forall j: nat :: 64 * i <= j < 64 * i + 64 && Column(j) < k ==> a[j] == StartProb(j)
      invariant forall j :: 0 <= j < 64 * i ==> a[j] == old(a[j])
    {
      FillColumn(a, i, k);
    }
    forall j: nat | 64 * i <= j < 64 * i + 64 ensures a[j] == StartProb(j) {
      assert Column(j) < 8;
    }
  }

  method FillColumn(a: array<nat>, i: nat, k: nat)
    requires a.Length == 0x2000 && i < 128 && k < 8
    requires forall j: nat :: 64 * i <= j < 64 * i + 64 && Column(j) < k ==> a[j] == StartProb(j)
    modifies a
    ensures forall j: nat :: 64 * i <= j < 64 * i + 64 && Column(j) <= k ==> a[j] == StartProb(j)
    ensures forall j :: 0 <= j < 64 * i ==> a[j] == old(a[j])
  {
    hide StartProb;
    hide Column;
    hide INIT_BIN_ESC;
    var val := StartValue(i, k);
    var r := 0;
    while r < 8
      invariant r <= 8
      invariant forall j: nat :: 64 * i <= j < 64 * i + 64 && (Column(j) < k || (Column(j) == k && j < 64 * i + 8 * r)) ==>
                  a[j] == StartProb(j)
      invariant forall j :: 0 <= j < 64 * i ==> a[j] == old(a[j])
    {
      var at := 64 * i + k + 8 * r;
      ProbAt(i, k, r);
      OnlyOne(i, k, r);
      a[at] := val;
      r := r + 1;
    }
  }

  method StartValue(i: nat, k: nat) returns (val: nat)
    requires i < 128 && k < 8
    ensures val == 0x4000 - INIT_BIN_ESC[k] / (i + 2)
  {
    QuotientInside(INIT_BIN_ESC[k], i + 2);
    val := 0x4000 - INIT_BIN_ESC[k] / (i + 2);
  }

  lemma OnlyOne(i: nat, k: nat, r: nat)
    requires k < 8
    ensures forall j: nat :: 64 * i + 8 * r <= j < 64 * i + 8 * r + 8 && Column(j) == k ==> j == 64 * i + k + 8 * r
  {
  }

  lemma ProbAt(i: nat, k: nat, r: nat)
    requires i < 128 && k < 8 && r < 8
    ensures 64 * i + k + 8 * r < 0x2000 && Column(64 * i + k + 8 * r) == k
    ensures StartProb(64 * i + k + 8 * r) == 0x4000 - INIT_BIN_ESC[k] / (i + 2)
  {
    assert (64 * i + k + 8 * r) / 64 == i && (64 * i + k + 8 * r) % 8 == k;
  }
}
