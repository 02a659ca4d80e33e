/**
  What PPMd7 asks for one symbol: which contexts are asked, which share of which total the symbol or the escape has
  there, and which estimators are asked and learn.
 */
module QuestionLaws {
  import opened Words
  import opened RangeSpec
  import opened PpmdContext
  import opened SymbolSpec
  import opened FrequencySpec
  import opened FrequencyLaws

  // ---------- one question ----------

  /** The states before a symbol have the start of its share, its frequency is the size; what is over is the escape's. */
  ghost predicate ShareOf(s: seq<State>, total: nat, symbol: int, step: Step) {
    && step.Symbol? && step.total == total
    && if symbol in Symbols(s) then
         exists i :: 0 <= i < |s| && s[i].symbol == symbol && step.start == SumFreq(s[..i]) && step.size == s[i].freq
       else step.start == SumFreq(s) && step.size == total - SumFreq(s)
  }

  lemma ShareIs(s: seq<State>, total: nat, symbol: int)
    requires SumFreq(s) <= total
    ensures ShareOf(s, total, symbol, ShareStep(s, total, IndexOf(s, symbol)))
    ensures IndexOf(s, symbol) < |s| <==> symbol in Symbols(s)
  {
    var i := IndexOf(s, symbol);
    if i < |s| {
      assert s[i].symbol as int in Symbols(s);
    }
  }

  // ---------- contexts asked after an escape ----------

  /** The states of a context that are not in another one, in their order. */
  ghost predicate Without(s: seq<State>, masked: set<int>, left: seq<State>) {
    && Symbols(left) == Symbols(s) - masked && (forall x :: x in left ==> x in s)
    && forall i, j :: 0 <= i < j < |left| ==> Before(s, left[i].symbol, left[j].symbol)
  }

  lemma {:induction false} VisibleWithout(s: seq<State>, masked: set<int>)
    ensures Without(s, masked, Visible(s, masked))
  {
    if s != [] {
      var front, last := s[..|s| - 1], s[|s| - 1];
      VisibleWithout(front, masked);
      var was, left := Visible(front, masked), Visible(s, masked);
      assert s == front + [last];
      SymbolsSnoc(front, last);
      if last.symbol as int !in masked {
        SymbolsSnoc(was, last);
      }
      forall i, j | 0 <= i < j < |left| ensures Before(s, left[i].symbol, left[j].symbol) {
        if j < |was| {
          assert Before(front, was[i].symbol, was[j].symbol);
          var p, q :| 0 <= p < q < |front| && front[p].symbol == was[i].symbol && front[q].symbol == was[j].symbol;
          assert s[p].symbol == left[i].symbol && s[q].symbol == left[j].symbol;
        } else {
          assert was[i] in front;
          var p :| 0 <= p < |front| && front[p] == was[i];
          assert s[p].symbol == left[i].symbol && s[|front|].symbol == left[j].symbol;
        }
      }
    }
  }

  /** An escape goes to the first context with more symbols, or out of the chain; one order less for every context. */
  ghost predicate Leads(chain: seq<Context>, level: nat, side: Side, stop: Stop)
    requires level < |chain|
  {
    var n := |chain[level].states|;
    match stop
    case End(up) =>
      && (forall j :: level < j < |chain| ==> |chain[j].states| == n)
      && up == side.(orderFall := side.orderFall + |chain| - level)
    case At(next, left, total, e, asked) =>
      && level < next < |chain| && n < |chain[next].states| && (forall j :: level < j < next ==> |chain[j].states| == n)
      && Without(chain[next].states, Symbols(chain[level].states), left)
      && var up := side.(orderFall := side.orderFall + next - level);
         && e == SeeIndex(chain, next, n, up) && e < |up.see|
         && total == SumFreq(left) + EscFreq(up, e) && asked == AskSee(up, e)
  }

  lemma {:induction false} ClimbSkips(chain: seq<Context>, level: nat, n: nat, orderFall: nat)
    requires level < |chain|
    ensures forall j :: level < j < Climb(chain, level, n, orderFall).0 ==> |chain[j].states| == n
    decreases |chain| - level
  {
    if level + 1 < |chain| && |chain[level + 1].states| == n {
      ClimbSkips(chain, level + 1, n, orderFall + 1);
    }
  }

  lemma EscapeLeads(chain: seq<Context>, level: nat, side: Side)
    requires level < |chain| && UsableChain(chain) && UsableSide(side)
    ensures Leads(chain, level, side, NextStop(chain, level, side))
  {
    hide Symbols;
    hide SumFreq;
    hide EscFreq;
    hide AskSee;
    hide Without;
    hide SeeIndex;
    var n := |chain[level].states|;
    ClimbSkips(chain, level, n, side.orderFall);
    var (next, order) := Climb(chain, level, n, side.orderFall);
    if next < |chain| {
      LeftFacts(chain, level, next);
      SeeIndexBound(chain, next, n, side.(orderFall := order));
      VisibleWithout(chain[next].states, Symbols(chain[level].states));
    }
  }

  /** One question after an escape from `level`: where it is asked, with which share, and what its estimator learns. */
  ghost predicate Asks(chain: seq<Context>, level: nat, side: Side, symbol: int, step: Step, found: bool, next: nat, after: Side)
    requires level < |chain|
  {
    exists left: seq<State>, total: nat, e: nat, asked: Side ::
      && Leads(chain, level, side, At(next, left, total, e, asked)) && e < |asked.see|
      && ShareOf(left, total, symbol, step) && (found <==> symbol in Symbols(left))
      && after == if found then HitSee(asked, e) else MissSee(asked, e, total)
  }

  /** Questions from a context on, each where the one before was answered by an escape. */
  ghost predicate Questions(chain: seq<Context>, symbol: int, steps: seq<Step>, levels: seq<nat>, sides: seq<Side>, r: Result) {
    && |levels| == |sides| == |steps| + 1 && (forall i :: 0 <= i <= |steps| ==> levels[i] < |chain|)
    && (forall i :: 0 <= i < |steps| ==>
          Asks(chain, levels[i], sides[i], symbol, steps[i], r.Found? && i == |steps| - 1, levels[i + 1], sides[i + 1]))
    && match r
       case Found(k, x, how, s) =>
         steps != [] && k == levels[|steps|] && x == symbol && how == Escaped && s == sides[|steps|]
       case EndMarker(s) => Leads(chain, levels[|steps|], sides[|steps|], End(s))
       case Corrupt(_) => false
  }

  lemma {:induction false} MaskedAsks(chain: seq<Context>, level: nat, side: Side, symbol: int)
    returns (levels: seq<nat>, sides: seq<Side>)
    requires level < |chain| && UsableChain(chain) && UsableSide(side)
    ensures var (steps, r) := EncodeMasked(chain, level, side, symbol);
            Questions(chain, symbol, steps, levels, sides, r) && levels[0] == level && sides[0] == side
    decreases |chain| - level
  {
    hide Questions;
    hide Asks;
    hide Leads;
    hide ShareStep;
    hide HitSee;
    hide MissSee;
    var stop := NextStop(chain, level, side);
    StopAsks(chain, level, side, symbol);
    hide NextStop;
    match stop
    case End(up) =>
      levels, sides := [level], [side];
      NoQuestion(chain, level, side, symbol, up);
    case At(next, left, total, e, asked) =>
      var i := IndexOf(left, symbol);
      hide IndexOf;
      if i < |left| {
        levels, sides := [level, next], [side, HitSee(asked, e)];
        OneQuestion(chain, level, side, symbol, ShareStep(left, total, i), next, HitSee(asked, e));
      } else {
        var after := MissSee(asked, e, total);
        levels, sides := MaskedAsks(chain, next, after, symbol);
        var (rest, r) := EncodeMasked(chain, next, after, symbol);
        QuestionsOn(chain, level, side, symbol, ShareStep(left, total, i), rest, levels, sides, r);
        levels, sides := [level] + levels, [side] + sides;
      }
  }

  /** What is asked where an escape leads. */
  lemma StopAsks(chain: seq<Context>, level: nat, side: Side, symbol: int)
    requires level < |chain| && UsableChain(chain) && UsableSide(side)
    ensures Leads(chain, level, side, NextStop(chain, level, side))
    ensures NextStop(chain, level, side).At? ==>
              var stop := NextStop(chain, level, side);
              var i := IndexOf(stop.left, symbol);
              Asks(chain, level, side, symbol, ShareStep(stop.left, stop.total, i), i < |stop.left|, stop.next,
                   if i < |stop.left| then HitSee(stop.asked, stop.e) else MissSee(stop.asked, stop.e, stop.total))
  {
    hide Leads;
    hide ShareOf;
    hide Symbols;
    hide ShareStep;
    hide HitSee;
    hide MissSee;
    EscapeLeads(chain, level, side);
    var stop := NextStop(chain, level, side);
    hide NextStop;
    if stop.At? {
      ShareIs(stop.left, stop.total, symbol);
    }
  }

  lemma NoQuestion(chain: seq<Context>, level: nat, side: Side, symbol: int, up: Side)
    requires level < |chain| && Leads(chain, level, side, End(up))
    ensures Questions(chain, symbol, [], [level], [side], EndMarker(up))
  {
    hide Leads;
  }

  lemma OneQuestion(chain: seq<Context>, level: nat, side: Side, symbol: int, step: Step, next: nat, after: Side)
    requires level < |chain| && next < |chain| && Asks(chain, level, side, symbol, step, true, next, after)
    ensures Questions(chain, symbol, [step], [level, next], [side, after], Found(next, symbol, Escaped, after))
  {
    hide Asks;
  }

  lemma QuestionsOn(chain: seq<Context>, level: nat, side: Side, symbol: int, step: Step, rest: seq<Step>, levels: seq<nat>,
                    sides: seq<Side>, r: Result)
    requires level < |chain| && Questions(chain, symbol, rest, levels, sides, r)
    requires Asks(chain, level, side, symbol, step, false, levels[0], sides[0])
    ensures Questions(chain, symbol, [step] + rest, [level] + levels, [side] + sides, r)
  {
    hide Asks;
    hide Leads;
    var ls, ss, steps := [level] + levels, [side] + sides, [step] + rest;
    forall i | 0 <= i < |steps|
      ensures Asks(chain, ls[i], ss[i], symbol, steps[i], r.Found? && i == |steps| - 1, ls[i + 1], ss[i + 1])
    {
      if i > 0 {
        assert Asks(chain, levels[i - 1], sides[i - 1], symbol, rest[i - 1], r.Found? && i - 1 == |rest| - 1, levels[i], sides[i]);
      }
    }
  }

  /** The question at MinContext when it has several states: the total is its own, and no estimator is asked. */
  ghost predicate AsksFirst(c: Context, side: Side, symbol: int, step: Step, known: bool, after: Side) {
    && ShareOf(c.states, c.summFreq, symbol, step) && (known <==> symbol in Symbols(c.states))
    && after.see == side.see && after.binSumm == side.binSumm && after.orderFall == side.orderFall
  }

  /** The question at a single state: a bit, 0 for the state, and its probability alone learns. */
  ghost predicate AsksBit(chain: seq<Context>, side: Side, symbol: int, step: Step, known: bool, after: Side)
    requires UsableChain(chain) && UsableSide(side) && |chain[0].states| == 1
  {
    BinIndexBound(chain, side);
    var b := BinIndex(chain, side);
    && b < |side.binSumm| && step == Bit(side.binSumm[b], if known then 0 else 1)
    && (known <==> chain[0].states[0].symbol == symbol)
    && after.binSumm == side.binSumm[b := if known then ProbAfter0(side.binSumm[b]) else ProbAfter1(side.binSumm[b])]
    && after.see == side.see && after.orderFall == side.orderFall
  }

  /** The first question, at MinContext. */
  ghost predicate AsksHere(chain: seq<Context>, side: Side, symbol: int, step: Step, known: bool, after: Side)
    requires UsableChain(chain) && UsableSide(side)
  {
    if |chain[0].states| == 1 then AsksBit(chain, side, symbol, step, known, after)
    else AsksFirst(chain[0], side, symbol, step, known, after)
  }

  /**
    The questions asked for a symbol, or for the end marker: the first at MinContext, and once that is answered by an
    escape, one at each context an escape leads to, until one knows the symbol or the chain ends.
   */
  lemma EncodeAsks(chain: seq<Context>, side: Side, symbol: int)
    returns (after: Side, levels: seq<nat>, sides: seq<Side>)
    requires UsableChain(chain) && UsableSide(side)
    ensures var (steps, r) := Encode(chain, side, symbol);
            && steps != [] && AsksHere(chain, side, symbol, steps[0], r.Found? && r.level == 0, after)
            && if r.Found? && r.level == 0 then |steps| == 1 && r.symbol == symbol && r.side == after
               else Questions(chain, symbol, steps[1..], levels, sides, r) && levels[0] == 0 && sides[0] == after
  {
    hide Questions;
    hide EncodeMasked;
    assert Usable(chain[0]);
    levels, sides := [], [];
    if |chain[0].states| == 1 {
      BinIndexBound(chain, side);
      var b := BinIndex(chain, side);
      hide BinIndex;
      if chain[0].states[0].symbol == symbol {
        after := HitBinary(LookBinary(side), b);
      } else {
        after := MissBinary(LookBinary(side), b);
        levels, sides := MaskedAsks(chain, 0, after, symbol);
        Deeper(chain, after, symbol, levels, sides);
      }
    } else {
      ShareIs(chain[0].states, chain[0].summFreq, symbol);
      var i := IndexOf(chain[0].states, symbol);
      hide IndexOf;
      hide ShareStep;
      hide ShareOf;
      hide Symbols;
      if i < |chain[0].states| {
        after := if i == 0 then side else side.(prevSuccess := 0);
      } else {
        after := EscapeFirst(side);
        levels, sides := MaskedAsks(chain, 0, after, symbol);
        Deeper(chain, after, symbol, levels, sides);
      }
    }
  }

  /** After an escape no symbol is found at MinContext. */
  lemma Deeper(chain: seq<Context>, side: Side, symbol: int, levels: seq<nat>, sides: seq<Side>)
    requires chain != [] && UsableChain(chain) && UsableSide(side)
    requires var (steps, r) := EncodeMasked(chain, 0, side, symbol); Questions(chain, symbol, steps, levels, sides, r)
    ensures var r := EncodeMasked(chain, 0, side, symbol).1; r.Found? ==> 0 < r.level
  {
    hide EncodeMasked;
    hide ShareOf;
    hide Without;
    var (steps, r) := EncodeMasked(chain, 0, side, symbol);
    if r.Found? {
      var n := |steps| - 1;
      assert Asks(chain, levels[n], sides[n], symbol, steps[n], true, levels[n + 1], sides[n + 1]);
    }
  }
}
