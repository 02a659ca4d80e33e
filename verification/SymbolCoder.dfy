/** Ppmd7_EncodeSymbol and Ppmd7_DecodeSymbol with their loops and masks, up to the call of the update procedure. */
module SymbolCoder {
  import opened Words
  import opened RangeSpec
  import opened RangeDecoder
  import opened RangeEncoder
  import opened PpmdContext
  import opened SymbolSpec
  import opened SymbolRoundTrip

  // ---------- scanning states under a mask ----------

  ghost predicate MaskIs(mask: seq<bool>, masked: set<int>) {
    |mask| == 256 && forall x: Byte :: mask[x] <==> x in masked
  }

  lemma {:induction false} VisibleAppend(a: seq<State>, b: seq<State>, masked: set<int>)
    ensures Visible(a + b, masked) == Visible(a, masked) + Visible(b, masked)
  {
    if b == [] {
      assert a + b == a;
    } else {
      VisibleAppend(a, b[..|b| - 1], masked);
      assert (a + b)[..|a + b| - 1] == a + b[..|b| - 1];
    }
  }

  lemma IndexOfAt(s: seq<State>, symbol: int, i: nat)
    requires i < |s| && s[i].symbol == symbol && forall k :: 0 <= k < i ==> s[k].symbol != symbol
    ensures IndexOf(s, symbol) == i
  {
  }

  /** The first unmasked match splits the visible states there. */
  lemma VisibleSplit(s: seq<State>, masked: set<int>, j: nat)
    requires j < |s| && s[j].symbol !in masked && Distinct(s)
    ensures var before := Visible(s[..j], masked);
            && IndexOf(Visible(s, masked), s[j].symbol) == |before| < |Visible(s, masked)|
            && Visible(s, masked)[..|before|] == before
            && Visible(s, masked)[|before|] == s[j]
  {
    hide Visible;
    hide IndexOf;
    var before := Visible(s[..j], masked);
    VisibleAt(s, masked, j);
    assert s == s[..j + 1] + s[j + 1..];
    VisibleAppend(s[..j + 1], s[j + 1..], masked);
    VisibleMembers(s[..j], masked);
    forall k | 0 <= k < |before| ensures Visible(s, masked)[k].symbol != s[j].symbol {
      assert before[k] in s[..j];
    }
    IndexOfAt(Visible(s, masked), s[j].symbol, |before|);
  }

  /** Adds the frequencies of the visible states from `from` on. */
  method SumRest(s: seq<State>, charMask: array<bool>, from: nat, before: nat, ghost masked: set<int>)
    returns (sum: nat)
    requires from <= |s| && before == SumFreq(Visible(s[..from], masked)) && charMask.Length == 256
    requires forall k :: from <= k < |s| ==> (charMask[s[k].symbol] <==> s[k].symbol in masked)
    ensures sum == SumFreq(Visible(s, masked))
  {
    sum := before;
    var j := from;
    while j < |s|
      invariant from <= j <= |s|
      invariant sum == SumFreq(Visible(s[..j], masked))
    {
      ScanStep(s, masked, j);
      sum := sum + if charMask[s[j].symbol] then 0 else s[j].freq;
      j := j + 1;
    }
    assert s[..j] == s;
  }

  /** Distinct symbols: those before `j` say nothing about those from `j` on. */
  lemma MaskAhead(s: seq<State>, mask: seq<bool>, masked: set<int>, j: nat)
    requires j <= |s| && Distinct(s) && MaskIs(mask, masked + Symbols(s[..j]))
    ensures forall k :: j <= k < |s| ==> (mask[s[k].symbol] <==> s[k].symbol in masked)
  {
    forall k | j <= k < |s| ensures s[k].symbol !in Symbols(s[..j]) {
    }
  }

  lemma MaskOne(mask: seq<bool>, masked: set<int>, x: Byte)
    requires MaskIs(mask, masked)
    ensures MaskIs(mask[x := true], masked + {x})
  {
  }

  method Rule(charMask: array<bool>, x: Byte, ghost masked: set<int>)
    requires MaskIs(charMask[..], masked)
    modifies charMask
    ensures MaskIs(charMask[..], masked + {x})
  {
    MaskOne(charMask[..], masked, x);
    ghost var before := charMask[..];
    charMask[x] := true;
    assert charMask[..] == before[x := true];
  }

  /** One more state scanned. */
  lemma ScanStep(s: seq<State>, masked: set<int>, j: nat)
    requires j < |s|
    ensures SumFreq(Visible(s[..j + 1], masked))
         == SumFreq(Visible(s[..j], masked)) + (if s[j].symbol in masked then 0 else s[j].freq)
    ensures Symbols(s[..j + 1]) == Symbols(s[..j]) + {s[j].symbol as int}
  {
    hide SumFreq;
    hide Visible;
    hide Symbols;
    VisibleAt(s, masked, j);
    SumFreqSnoc(Visible(s[..j], masked), s[j]);
    SymbolsSnoc(s[..j], s[j]);
    assert s[..j + 1] == s[..j] + [s[j]];
  }

  /** Passes one state: it is counted when visible, and masked. */
  method PassOne(s: seq<State>, charMask: array<bool>, j: nat, before: nat, ghost masked: set<int>) returns (sum: nat)
    requires Distinct(s) && j < |s| && before == SumFreq(Visible(s[..j], masked))
    requires MaskIs(charMask[..], masked + Symbols(s[..j]))
    modifies charMask
    ensures sum == SumFreq(Visible(s[..j + 1], masked)) && MaskIs(charMask[..], masked + Symbols(s[..j + 1]))
    ensures Symbols(s[..j + 1]) == Symbols(s[..j]) + {s[j].symbol as int}
  {
    hide Distinct;
    hide SumFreq;
    hide Visible;
    hide Symbols;
    MaskAhead(s, charMask[..], masked, j);
    ScanStep(s, masked, j);
    sum := before + if charMask[s[j].symbol] then 0 else s[j].freq;
    Rule(charMask, s[j].symbol, masked + Symbols(s[..j]));
    assert masked + Symbols(s[..j + 1]) == masked + Symbols(s[..j]) + {s[j].symbol as int};
  }

  /** Adds up the visible states before the first match, masking everything passed. */
  method ScanFor(s: seq<State>, symbol: int, charMask: array<bool>, ghost masked: set<int>) returns (j: nat, sum: nat)
    requires Distinct(s) && MaskIs(charMask[..], masked)
    modifies charMask
    ensures j <= |s| && sum == SumFreq(Visible(s[..j], masked)) && MaskIs(charMask[..], masked + Symbols(s[..j]))
    ensures symbol !in Symbols(s[..j]) && (j < |s| ==> s[j].symbol == symbol) && s[..|s|] == s
  {
    j, sum := 0, 0;
    assert masked + Symbols(s[..0]) == masked && s[..|s|] == s;
    hide Distinct;
    hide MaskIs;
    while j < |s|
      invariant 0 <= j <= |s|
      invariant sum == SumFreq(Visible(s[..j], masked))
      invariant MaskIs(charMask[..], masked + Symbols(s[..j])) && symbol !in Symbols(s[..j])
    {
      if s[j].symbol == symbol {
        return;
      }
      sum := PassOne(s, charMask, j, sum, masked);
      j := j + 1;
    }
  }

  /** The frequencies before the symbol, which is not the first; all of them when it does not occur. */
  method FindLater(s: seq<State>, symbol: int) returns (j: nat, sum: nat)
    requires 1 <= |s| && s[0].symbol != symbol
    ensures 1 <= j == IndexOf(s, symbol) && sum == SumFreq(s[..j])
  {
    sum := s[0].freq;
    SumFreqAt(s, 0);
    j := 1;
    while j < |s|
      invariant 1 <= j <= |s| && sum == SumFreq(s[..j])
      invariant forall k :: 0 <= k < j ==> s[k].symbol != symbol
    {
      if s[j].symbol == symbol {
        IndexOfAt(s, symbol, j);
        return;
      }
      SumFreqAt(s, j);
      sum := sum + s[j].freq;
      j := j + 1;
    }
  }

  function TakeStop(iv: Interval, stop: Stop, symbol: int): (r: Interval)
    requires UsableStop(stop) && 0x100_0000 <= iv.range < 0x1_0000_0000
  {
    match stop
    case End(_) => iv
    case At(_, left, total, _, _) =>
      ShareStepValid(left, total, IndexOf(left, symbol));
      Take(iv, ShareStep(left, total, IndexOf(left, symbol)))
  }

  /** One round of the escape loop takes the first of the steps, and leaves the others when it does not end the loop. */
  ghost predicate RoundTakes(chain: seq<Context>, stop: Stop, symbol: int, iv: Interval, steps: seq<Step>, result: Result)
    requires UsableStop(stop) && UsableChain(chain) && 0x100_0000 <= iv.range < 0x1_0000_0000
  {
    && ValidSteps(steps)
    && match stop
       case End(up) => Run(iv, steps) == iv && result == EndMarker(up)
       case At(next, left, total, e, asked) =>
         if IndexOf(left, symbol) < |left| then
           Run(iv, steps) == TakeStop(iv, stop, symbol) && result == Found(next, symbol, How.Escaped, HitSee(asked, e))
         else
           && next < |chain|
           && var rest := EncodeMasked(chain, next, MissSee(asked, e, total), symbol);
              ValidSteps(rest.0) && Run(iv, steps) == Run(TakeStop(iv, stop, symbol), rest.0) && result == rest.1
  }

  lemma RunMasked(chain: seq<Context>, level: nat, side: Side, symbol: int, iv: Interval)
    requires level < |chain| && UsableChain(chain) && UsableSide(side) && 0x100_0000 <= iv.range < 0x1_0000_0000
    ensures var r := EncodeMasked(chain, level, side, symbol);
            RoundTakes(chain, NextStop(chain, level, side), symbol, iv, r.0, r.1)
  {
    hide Take;
    hide Usable;
    hide SumFreq;
    EncodeMaskedValid(chain, level, side, symbol);
    match NextStop(chain, level, side)
    case End(_) =>
    case At(next, left, total, e, asked) =>
      var step := ShareStep(left, total, IndexOf(left, symbol));
      ShareStepValid(left, total, IndexOf(left, symbol));
      if IndexOf(left, symbol) < |left| {
        RunOne(iv, step);
      } else {
        EncodeMaskedValid(chain, next, MissSee(asked, e, total), symbol);
        RunOn(iv, step, EncodeMasked(chain, next, MissSee(asked, e, total), symbol).0);
      }
  }

  class Ppmd7 {
    /** The contexts from the MinContext of the last symbol to the root, and where MinContext stands now. */
    var chain: seq<Context>
    var minContext: nat
    /** The estimators, binary probabilities and flags. */
    var side: Side

    ghost predicate Valid()
      reads this
    {
      UsableChain(chain) && UsableSide(side) && minContext < |chain|
    }

    constructor (chain: seq<Context>, side: Side)
      requires UsableChain(chain) && UsableSide(side)
      ensures Valid() && this.chain == chain && this.side == side && minContext == 0
    {
      this.chain, this.side, minContext := chain, side, 0;
    }

    /** Rules out every symbol of MinContext. */
    method MaskAll(charMask: array<bool>, ghost masked: set<int>)
      requires Valid() && MaskIs(charMask[..], masked)
      modifies charMask
      ensures MaskIs(charMask[..], masked + Symbols(chain[minContext].states))
    {
      var s := chain[minContext].states;
      var i := |s|;
      while i != 0
        invariant 0 <= i <= |s|
        invariant MaskIs(charMask[..], masked + Symbols(s[i..]))
      {
        i := i - 1;
        SymbolsCons(s, i);
        Rule(charMask, s[i].symbol, masked + Symbols(s[i + 1..]));
        assert masked + Symbols(s[i..]) == masked + Symbols(s[i + 1..]) + {s[i].symbol as int};
      }
      assert s[0..] == s;
    }

    lemma SymbolsCons(s: seq<State>, i: nat)
      requires i < |s|
      ensures Symbols(s[i..]) == Symbols(s[i + 1..]) + {s[i].symbol as int}
    {
      var a, b := s[i..], s[i + 1..];
      assert forall k :: 0 <= k < |b| ==> b[k] == a[k + 1];
      forall x | x in Symbols(a) ensures x in Symbols(b) + {s[i].symbol as int} {
        var k :| 0 <= k < |a| && a[k].symbol == x;
        if 0 < k {
          assert b[k - 1].symbol == x;
        }
      }
      forall x | x in Symbols(b) ensures x in Symbols(a) {
        var k :| 0 <= k < |b| && b[k].symbol == x;
        assert a[k + 1].symbol == x;
      }
      assert a[0].symbol == s[i].symbol;
    }

    /** One step of the order per suffix link, past the contexts with nothing new; false at the end of the chain. */
    method ClimbSuffixes() returns (more: bool)
      requires minContext < |chain|
      modifies `side, `minContext
      ensures var (next, order) := Climb(chain, old(minContext), |chain[old(minContext)].states|, old(side).orderFall);
              && side == old(side).(orderFall := order)
              && more == (next < |chain|) && minContext < |chain| && (more ==> minContext == next)
    {
      var numMasked := |chain[minContext].states|;
      ghost var goal := Climb(chain, minContext, numMasked, side.orderFall);
      while true
        invariant minContext < |chain| && side == old(side).(orderFall := side.orderFall)
        invariant Climb(chain, minContext, numMasked, side.orderFall) == goal
        decreases |chain| - minContext
      {
        side := side.(orderFall := side.orderFall + 1);
        if minContext + 1 == |chain| {
          return false;
        }
        minContext := minContext + 1;
        if |chain[minContext].states| != numMasked {
          break;
        }
      }
      more := true;
    }

    /** Picks the estimator and takes its share of the escape. */
    method MakeEscFreq(numMasked: nat) returns (e: nat, escFreq: nat)
      requires Valid() && numMasked < |chain[minContext].states|
      modifies `side
      ensures e == SeeIndex(chain, minContext, numMasked, old(side)) && e < |old(side).see|
      ensures escFreq == EscFreq(old(side), e) && side == AskSee(old(side), e)
    {
      SeeIndexBound(chain, minContext, numMasked, side);
      e := SeeIndex(chain, minContext, numMasked, side);
      escFreq := 1;
      if e != DUMMY {
        var r := SeeShare(side.see[e]);
        side := side.(see := side.see[e := side.see[e].(summ := side.see[e].summ - r)]);
        escFreq := if r == 0 then 1 else r;
      }
    }

    method SeeUpdate(e: nat)
      requires e < |side.see|
      modifies `side
      ensures side == HitSee(old(side), e)
    {
      var see := side.see[e];
      if see.shift < 7 {
        see := see.(count := (see.count + 255) % 256);
        if see.count == 0 {
          see := See(2 * see.summ % 0x1_0000, see.shift + 1, 3 * Pow2(see.shift) % 256);
        }
        side := side.(see := side.see[e := see]);
      }
    }

    /** Whether MinContext and the side state are what `r` says, with FoundState at the symbol found. */
    ghost predicate Shows(r: Result, symbol: int, how: How)
      reads this
    {
      match r
      case Found(level, x, h, s) =>
        && x == symbol && h == how && minContext == level && 0 <= symbol < 256
        && side == s.(foundSymbol := symbol)
      case EndMarker(s) => side == s
      case Corrupt(s) => symbol == -2 && side == s
    }

    /** One pass over the states of MinContext: codes the symbol, or masks everything and codes the escape. */
    method EncodeShare(rc: Encoder, symbol: int, charMask: array<bool>, escFreq: nat, ghost level: nat,
                       ghost left: seq<State>)
      returns (found: bool, sum: nat)
      requires Valid() && rc.Valid() && level < minContext && left == Left(chain, level, minContext)
      requires MaskIs(charMask[..], Symbols(chain[level].states)) && symbol !in Symbols(chain[level].states)
      requires ValidStep(ShareStep(left, SumFreq(left) + escFreq, IndexOf(left, symbol)))
      modifies rc, charMask
      ensures rc.Valid()
      ensures rc.Abs() == Take(old(rc.Abs()), ShareStep(left, SumFreq(left) + escFreq, IndexOf(left, symbol)))
      ensures found == (IndexOf(left, symbol) < |left|) && sum == SumFreq(left)
      ensures found ==> 0 <= symbol < 256
      ensures !found ==> MaskIs(charMask[..], Symbols(chain[minContext].states))
                         && symbol !in Symbols(chain[minContext].states)
    {
      hide Symbols;
      hide SumFreq;
      hide IndexOf;
      var s := chain[minContext].states;
      ghost var masked := Symbols(chain[level].states);
      assert Usable(chain[minContext]);
      IndexOfVisible(s, masked, symbol);
      var j;
      j, sum := ScanFor(s, symbol, charMask, masked);
      if j < |s| {
        VisibleSplit(s, masked, j);
        MaskAhead(s, charMask[..], masked, j);
        var low := sum;
        sum := SumRest(s, charMask, j, sum, masked);
        rc.Encode(low, s[j].freq, sum + escFreq);
        found := true;
      } else {
        Contained(chain, level, minContext);
        assert masked + Symbols(s) == Symbols(s);
        rc.Encode(sum, escFreq, sum + escFreq);
        found := false;
      }
    }

    /** What one round of escaping must do, given where it leads. */
    ghost predicate RoundDone(stop: Stop, finished: bool, symbol: int, charMask: seq<bool>)
      reads this
      requires UsableStop(stop)
    {
      match stop
      case End(up) => finished && side == up
      case At(next, left, total, e, asked) =>
        && finished == (IndexOf(left, symbol) < |left|)
        && minContext == next < |chain|
        && side == (if finished then HitSee(asked, e).(foundSymbol := if 0 <= symbol < 256 then symbol else 0)
                    else MissSee(asked, e, total))
        && (finished ==> 0 <= symbol < 256)
        && (!finished ==> MaskIs(charMask, Symbols(chain[next].states)) && symbol !in Symbols(chain[next].states))
    }

    /** Climbs to the next context with something new and asks its estimator. */
    method NextRound(ghost stop: Stop) returns (more: bool, e: nat, escFreq: nat)
      requires Valid() && stop == NextStop(chain, minContext, side)
      modifies `side, `minContext
      ensures minContext < |chain|
      ensures match stop
              case End(up) => !more && side == up
              case At(next, left, total, e', asked) =>
                more && minContext == next && e == e' && total == SumFreq(left) + escFreq && side == asked
    {
      hide SumFreq;
      hide Visible;
      hide Symbols;
      hide Usable;
      hide SeeIndex;
      ghost var level := minContext;
      var numMasked := |chain[minContext].states|;
      e, escFreq := 0, 0;
      more := ClimbSuffixes();
      if more {
        LeftFacts(chain, level, minContext);
        e, escFreq := MakeEscFreq(numMasked);
      }
    }

    /** One round of the escape loop: climb, ask the estimator, code the symbol or another escape. */
    method EncodeRound(rc: Encoder, symbol: int, charMask: array<bool>, ghost stop: Stop) returns (finished: bool)
      requires Valid() && rc.Valid() && stop == NextStop(chain, minContext, side)
      requires MaskIs(charMask[..], Symbols(chain[minContext].states)) && symbol !in Symbols(chain[minContext].states)
      modifies this, rc, charMask
      ensures rc.Valid() && chain == old(chain) && RoundDone(stop, finished, symbol, charMask[..])
      ensures rc.Abs() == TakeStop(old(rc.Abs()), stop, symbol)
    {
      hide Symbols;
      hide SumFreq;
      hide IndexOf;
      hide Visible;
      hide Usable;
      hide ShareStep;
      ghost var level := minContext;
      var more, e, escFreq := NextRound(stop);
      if !more {
        return true;
      }
      ShareStepValid(stop.left, stop.total, IndexOf(stop.left, symbol));
      var sum;
      finished, sum := EncodeShare(rc, symbol, charMask, escFreq, level, stop.left);
      if finished {
        SeeUpdate(e);
        side := side.(foundSymbol := symbol);
      } else {
        side := MissSee(side, e, sum + escFreq);
      }
    }

    /** The escape loop. */
    method EncodeEscapes(rc: Encoder, symbol: int, charMask: array<bool>)
      requires Valid() && rc.Valid()
      requires MaskIs(charMask[..], Symbols(chain[minContext].states)) && symbol !in Symbols(chain[minContext].states)
      modifies this, rc, charMask
      ensures rc.Valid() && chain == old(chain)
      ensures ValidSteps(EncodeMasked(chain, old(minContext), old(side), symbol).0)
      ensures rc.Abs() == Run(old(rc.Abs()), EncodeMasked(chain, old(minContext), old(side), symbol).0)
      ensures Shows(EncodeMasked(chain, old(minContext), old(side), symbol).1, symbol, How.Escaped)
    {
      hide EncodeMasked;
      hide Take;
      hide Run;
      hide Symbols;
      hide IndexOf;
      hide Usable;
      EncodeMaskedValid(chain, minContext, side, symbol);
      ghost var (steps, result) := EncodeMasked(chain, minContext, side, symbol);
      ghost var goal := Run(rc.Abs(), steps);
      while true
        invariant Valid() && rc.Valid() && chain == old(chain)
        invariant MaskIs(charMask[..], Symbols(chain[minContext].states))
        invariant symbol !in Symbols(chain[minContext].states)
        invariant EncodeMasked(chain, minContext, side, symbol) == (steps, result)
        invariant ValidSteps(steps) && Run(rc.Abs(), steps) == goal
        decreases |chain| - minContext
      {
        ghost var stop := NextStop(chain, minContext, side);
        RunMasked(chain, minContext, side, symbol, rc.Abs());
        var finished := EncodeRound(rc, symbol, charMask, stop);
        if finished {
          break;
        }
        steps := EncodeMasked(chain, minContext, side, symbol).0;
      }
    }

    /** Ppmd7_EncodeSymbol for a byte, or -1 for the end marker, up to the update of the model. */
    method EncodeSymbol(rc: Encoder, symbol: int) returns (how: How)
      requires Valid() && rc.Valid() && minContext == 0 && -1 <= symbol < 256
      modifies this, rc
      ensures rc.Valid() && chain == old(chain)
      ensures ValidSteps(Encode(chain, old(side), symbol).0)
      ensures rc.Abs() == Run(old(rc.Abs()), Encode(chain, old(side), symbol).0)
      ensures Shows(Encode(chain, old(side), symbol).1, symbol, how)
    {
      EncodeValid(chain, side, symbol);
      assert Usable(chain[0]);
      var s := chain[0].states;
      var charMask := new bool[256](_ => false);
      if |s| != 1 {
        how := EncodeFirstContext(rc, symbol, charMask);
      } else {
        how := EncodeOneState(rc, symbol, charMask);
      }
    }

    /** No state of the first context is the symbol: all are ruled out, and an escape is coded. */
    method EscapeFromFirst(rc: Encoder, symbol: int, charMask: array<bool>, sum: nat)
      requires Valid() && rc.Valid() && minContext == 0 && |chain[0].states| != 1 && MaskIs(charMask[..], {})
      requires sum == SumFreq(chain[0].states) < chain[0].summFreq && IndexOf(chain[0].states, symbol) == |chain[0].states|
      requires ValidStep(Symbol(sum, chain[0].summFreq - sum, chain[0].summFreq)) && side.prevSuccess == 0
      modifies this, rc, charMask
      ensures rc.Valid() && chain == old(chain)
      ensures var (steps, result) := EncodeMasked(chain, 0, EscapeFirst(old(side)), symbol);
              && ValidSteps(steps) && Shows(result, symbol, How.Escaped)
              && rc.Abs() == Run(Take(old(rc.Abs()), Symbol(sum, chain[0].summFreq - sum, chain[0].summFreq)), steps)
    {
      hide EncodeMasked;
      hide SumFreq;
      hide Usable;
      hide Take;
      hide Run;
      var c := chain[0];
      side := side.(hiBitsFlag := HB2Flag(side.foundSymbol));
      MaskAll(charMask, {});
      assert {} + Symbols(c.states) == Symbols(c.states);
      rc.Encode(sum, c.summFreq - sum, c.summFreq);
      EncodeEscapes(rc, symbol, charMask);
    }

    method EncodeFirstContext(rc: Encoder, symbol: int, charMask: array<bool>) returns (how: How)
      requires Valid() && rc.Valid() && minContext == 0 && |chain[0].states| != 1 && MaskIs(charMask[..], {})
      requires -1 <= symbol < 256
      modifies this, rc, charMask
      ensures rc.Valid() && chain == old(chain)
      ensures ValidSteps(EncodeFirst(chain, old(side), symbol).0)
      ensures rc.Abs() == Run(old(rc.Abs()), EncodeFirst(chain, old(side), symbol).0)
      ensures Shows(EncodeFirst(chain, old(side), symbol).1, symbol, how)
    {
      hide EncodeMasked;
      hide SumFreq;
      hide IndexOf;
      hide Take;
      hide Run;
      hide Symbols;
      assert Usable(chain[0]);
      var c := chain[0];
      var s := c.states;
      ghost var step := ShareStep(s, c.summFreq, IndexOf(s, symbol));
      ShareStepValid(s, c.summFreq, IndexOf(s, symbol));
      RunOne(rc.Abs(), step);
      if s[0].symbol == symbol {
        IndexOfAt(s, symbol, 0);
        NoSum(s);
        rc.Encode(0, s[0].freq, c.summFreq);
        side := side.(foundSymbol := symbol);
        return First;
      }
      side := side.(prevSuccess := 0);
      var j, sum := FindLater(s, symbol);
      if j < |s| {
        rc.Encode(sum, s[j].freq, c.summFreq);
        side := side.(foundSymbol := symbol);
        return Later;
      }
      assert s[..|s|] == s;
      EncodeMaskedValid(chain, 0, EscapeFirst(side), symbol);
      RunOn(rc.Abs(), step, EncodeMasked(chain, 0, EscapeFirst(side), symbol).0);
      EscapeFromFirst(rc, symbol, charMask, sum);
      how := How.Escaped;
    }

    lemma NoSum(s: seq<State>)
      ensures SumFreq(s[..0]) == 0
    {
    }

    /** The one state is not the symbol: it is ruled out, and the coder has sent a one bit. */
    method EscapeFromOne(rc: Encoder, symbol: int, charMask: array<bool>, b: nat)
      requires Valid() && rc.Valid() && minContext == 0 && |chain[0].states| == 1 && MaskIs(charMask[..], {})
      requires chain[0].states[0].symbol != symbol && b < |side.binSumm|
      modifies this, rc, charMask
      ensures rc.Valid() && chain == old(chain)
      ensures UsableSide(MissBinary(old(side), b))
      ensures var (steps, result) := EncodeMasked(chain, 0, MissBinary(old(side), b), symbol);
              && ValidSteps(steps) && Shows(result, symbol, How.Escaped) && rc.Abs() == Run(old(rc.Abs()), steps)
    {
      hide EncodeMasked;
      hide SumFreq;
      hide Usable;
      hide Run;
      var one := chain[0].states[0];
      ProbStaysInside(side.binSumm[b]);
      var prob := ProbAfter1(side.binSumm[b]);
      EscapeIndex(prob);
      side := side.(binSumm := side.binSumm[b := prob], initEsc := EXP_ESCAPE[prob / 0x400], prevSuccess := 0);
      Rule(charMask, one.symbol, {});
      assert {} + {one.symbol} == Symbols(chain[0].states);
      EncodeEscapes(rc, symbol, charMask);
    }

    method EncodeOneState(rc: Encoder, symbol: int, charMask: array<bool>) returns (how: How)
      requires Valid() && rc.Valid() && minContext == 0 && |chain[0].states| == 1 && MaskIs(charMask[..], {})
      requires -1 <= symbol < 256
      modifies this, rc, charMask
      ensures rc.Valid() && chain == old(chain)
      ensures ValidSteps(EncodeBinary(chain, old(side), symbol).0)
      ensures rc.Abs() == Run(old(rc.Abs()), EncodeBinary(chain, old(side), symbol).0)
      ensures Shows(EncodeBinary(chain, old(side), symbol).1, symbol, how)
    {
      hide EncodeMasked;
      hide Usable;
      hide Take;
      hide Run;
      BinIndexBound(chain, side);
      var b := BinIndex(chain, side);
      var prob := side.binSumm[b];
      ProbStaysInside(prob);
      side := side.(hiBitsFlag := HB2Flag(side.foundSymbol));
      if chain[0].states[0].symbol == symbol {
        RunOne(rc.Abs(), Bit(prob, 0));
        rc.EncodeBit0(prob);
        side := side.(binSumm := side.binSumm[b := ProbAfter0(prob)]);
        side := side.(foundSymbol := symbol);
        return Binary;
      }
      ghost var start := rc.Abs();
      rc.EncodeBit1(prob);
      ghost var missed := MissBinary(side, b);
      EscapeFromOne(rc, symbol, charMask, b);
      EncodeMaskedValid(chain, 0, missed, symbol);
      RunOn(start, Bit(prob, 1), EncodeMasked(chain, 0, missed, symbol).0);
      how := How.Escaped;
    }

    // ---------- decoding ----------

    /** What one round of escaping must do on the decoder's side. */
    ghost predicate Decoded(stop: Stop, d: Registers, input: seq<Byte>, after: Registers, finished: bool, symbol: int,
                            charMask: seq<bool>)
      reads this
      requires UsableStop(stop) && Ready(d)
    {
      match stop
      case End(up) => finished && symbol == -1 && side == up && after == d
      case At(next, left, total, e, asked) =>
        var i := Locate(left, Threshold(d, total));
        if i < |left| then
          && finished && symbol == left[i].symbol && minContext == next && after == AfterShare(d, left, total, i, input)
          && side == HitSee(asked, e).(foundSymbol := left[i].symbol)
        else if total <= Threshold(d, total) then
          finished && symbol == -2 && minContext == next && side == asked && after == Divide(d, total)
        else
          && !finished && minContext == next && after == AfterShare(d, left, total, i, input)
          && side == MissSee(asked, e, total) && next < |chain| && MaskIs(charMask, Symbols(chain[next].states))
    }

    /** The states left are gathered; a share of theirs gives the symbol, anything past the total is corrupt. */
    method DecodeVisible(rc: Decoder, charMask: array<bool>, escFreq: nat, numMasked: nat,
                         ghost level: nat, ghost left: seq<State>)
      returns (symbol: int, total: nat)
      requires Valid() && rc.Valid7z() && level < minContext && left == Left(chain, level, minContext)
      requires |chain[level].states| == numMasked && |chain[minContext].states| - numMasked == |left|
      requires MaskIs(charMask[..], Symbols(chain[level].states)) && FreqsIn(left, 1, 128)
      requires 0 < escFreq && SumFreq(left) + escFreq <= 0x100_0000
      modifies rc, charMask
      ensures total == SumFreq(left) + escFreq
      ensures var d := old(rc.Regs());
              var i := Locate(left, Threshold(d, total));
              if i < |left| then symbol == left[i].symbol && rc.Regs() == AfterShare(d, left, total, i, rc.input)
              else if total <= Threshold(d, total) then symbol == -2 && rc.Regs() == Divide(d, total)
              else symbol == -1 && rc.Regs() == AfterShare(d, left, total, i, rc.input)
                   && MaskIs(charMask[..], Symbols(chain[minContext].states))
    {
      hide Symbols;
      hide SumFreq;
      hide Visible;
      hide Usable;
      hide Divide;
      hide Threshold;
      hide AfterShare;
      var s := chain[minContext].states;
      ghost var d, masked := rc.Regs(), Symbols(chain[level].states);
      var ps, hiCnt := CollectVisible(s, charMask, |s| - numMasked, masked);
      total := escFreq + hiCnt;
      var count := rc.GetThreshold(total);
      if count < hiCnt {
        var i, below := FindShare(ps, count);
        DecodeShare(rc, d, ps, total, i, below, ps[i].freq);
        return ps[i].symbol, total;
      }
      if count >= total {
        return -2, total;
      }
      assert left[..|left|] == left;
      DecodeShare(rc, d, ps, total, |ps|, hiCnt, total - hiCnt);
      MaskAll(charMask, masked);
      Contained(chain, level, minContext);
      assert masked + Symbols(s) == Symbols(s);
      symbol := -1;
    }

    /** One round of the decoder's escape loop. */
    method DecodeRound(rc: Decoder, charMask: array<bool>, ghost stop: Stop) returns (finished: bool, symbol: int)
      requires Valid() && rc.Valid7z() && stop == NextStop(chain, minContext, side)
      requires MaskIs(charMask[..], Symbols(chain[minContext].states))
      modifies this, rc, charMask
      ensures chain == old(chain)
      ensures Decoded(stop, old(rc.Regs()), rc.input, rc.Regs(), finished, symbol, charMask[..])
    {
      hide Symbols;
      hide SumFreq;
      hide Visible;
      hide Usable;
      hide Threshold;
      hide Divide;
      hide AfterShare;
      ghost var level := minContext;
      var numMasked := |chain[minContext].states|;
      var more, e, escFreq := NextRound(stop);
      if !more {
        return true, -1;
      }
      LeftFacts(chain, level, minContext);
      var total;
      symbol, total := DecodeVisible(rc, charMask, escFreq, numMasked, level, stop.left);
      if symbol >= 0 {
        SeeUpdate(e);
        side := side.(foundSymbol := symbol);
        return true, symbol;
      }
      if symbol == -2 {
        return true, symbol;
      }
      side := MissSee(side, e, total);
      finished := false;
    }

    /** The decoder's escape loop. */
    method DecodeEscapes(rc: Decoder, charMask: array<bool>) returns (symbol: int)
      requires Valid() && rc.Valid7z() && MaskIs(charMask[..], Symbols(chain[minContext].states))
      modifies this, rc, charMask
      ensures chain == old(chain)
      ensures var (result, after) := DecodeMasked(chain, old(minContext), old(side), old(rc.Regs()), rc.input);
              rc.Regs() == after && symbol == SymbolOf(result) && Shows(result, symbol, How.Escaped)
    {
      ghost var goal := DecodeMasked(chain, minContext, side, rc.Regs(), rc.input);
      while true
        invariant Valid() && rc.Valid7z() && chain == old(chain)
        invariant MaskIs(charMask[..], Symbols(chain[minContext].states))
        invariant DecodeMasked(chain, minContext, side, rc.Regs(), rc.input) == goal
        decreases |chain| - minContext
      {
        ghost var stop := NextStop(chain, minContext, side);
        var finished;
        finished, symbol := DecodeRound(rc, charMask, stop);
        if finished {
          break;
        }
      }
    }

    /** Ppmd7_DecodeSymbol: a byte, -1 for the end marker, -2 for corrupt data; up to the update of the model. */
    method DecodeSymbol(rc: Decoder) returns (symbol: int, how: How)
      requires Valid() && rc.Valid7z() && minContext == 0
      modifies this, rc
      ensures chain == old(chain)
      ensures var (result, after) := Decode(chain, old(side), old(rc.Regs()), rc.input);
              rc.Regs() == after && symbol == SymbolOf(result) && Shows(result, symbol, how)
    {
      var charMask := new bool[256](_ => false);
      assert Usable(chain[0]);
      if |chain[0].states| != 1 {
        symbol, how := DecodeFirstContext(rc, charMask);
      } else {
        symbol, how := DecodeOneState(rc, charMask);
      }
    }

    method DecodeFirstContext(rc: Decoder, charMask: array<bool>) returns (symbol: int, how: How)
      requires Valid() && rc.Valid7z() && minContext == 0 && |chain[0].states| != 1 && MaskIs(charMask[..], {})
      modifies this, rc, charMask
      ensures chain == old(chain)
      ensures var (result, after) := DecodeFirst(chain, old(side), old(rc.Regs()), rc.input);
              rc.Regs() == after && symbol == SymbolOf(result) && Shows(result, symbol, how)
    {
      assert Usable(chain[0]);
      var c := chain[0];
      var s := c.states;
      ghost var d := rc.Regs();
      var count := rc.GetThreshold(c.summFreq);
      SumFreqAt(s, 0);
      if count < s[0].freq {
        LocateInside(s, count, 0);
        DecodeShare(rc, d, s, c.summFreq, 0, 0, s[0].freq);
        side := side.(foundSymbol := s[0].symbol);
        return s[0].symbol, First;
      }
      side := side.(prevSuccess := 0);
      var i, hiCnt := FindLaterShare(s, count);
      if i < |s| {
        DecodeShare(rc, d, s, c.summFreq, i, hiCnt - s[i].freq, s[i].freq);
        side := side.(foundSymbol := s[i].symbol);
        return s[i].symbol, Later;
      }
      if count >= c.summFreq {
        return -2, Later;
      }
      side := side.(hiBitsFlag := HB2Flag(side.foundSymbol));
      DecodeShare(rc, d, s, c.summFreq, |s|, hiCnt, c.summFreq - hiCnt);
      MaskAll(charMask, {});
      assert {} + Symbols(s) == Symbols(s);
      symbol := DecodeEscapes(rc, charMask);
      how := How.Escaped;
    }

    method DecodeOneState(rc: Decoder, charMask: array<bool>) returns (symbol: int, how: How)
      requires Valid() && rc.Valid7z() && minContext == 0 && |chain[0].states| == 1 && MaskIs(charMask[..], {})
      modifies this, rc, charMask
      ensures chain == old(chain)
      ensures var (result, after) := DecodeBinary(chain, old(side), old(rc.Regs()), rc.input);
              rc.Regs() == after && symbol == SymbolOf(result) && Shows(result, symbol, how)
    {
      BinIndexBound(chain, side);
      var b := BinIndex(chain, side);
      var prob := side.binSumm[b];
      side := side.(hiBitsFlag := HB2Flag(side.foundSymbol));
      var one := chain[0].states[0];
      ProbStaysInside(prob);
      var bit := rc.DecodeBit7z(prob);
      if bit == 0 {
        side := side.(binSumm := side.binSumm[b := ProbAfter0(prob)]);
        side := side.(foundSymbol := one.symbol);
        return one.symbol, Binary;
      }
      prob := ProbAfter1(prob);
      EscapeIndex(prob);
      side := side.(binSumm := side.binSumm[b := prob], initEsc := EXP_ESCAPE[prob / 0x400], prevSuccess := 0);
      Rule(charMask, one.symbol, {});
      assert {} + {one.symbol} == Symbols(chain[0].states);
      symbol := DecodeEscapes(rc, charMask);
      how := How.Escaped;
    }
  }

  lemma NothingVisible(masked: set<int>)
    ensures Visible([], masked) == [] && SumFreq([]) == 0
  {
  }

  lemma AllVisible(s: seq<State>, masked: set<int>, j: nat)
    requires j <= |s|
    ensures Visible(s, masked) == Visible(s[..j], masked) + Visible(s[j..], masked)
    ensures j == |s| ==> Visible(s, masked) == Visible(s[..j], masked)
  {
    assert s == s[..j] + s[j..];
    VisibleAppend(s[..j], s[j..], masked);
  }

  /** The visible states, gathered until `num` of them are found, and their total. */
  method CollectVisible(s: seq<State>, charMask: array<bool>, num: nat, ghost masked: set<int>)
    returns (ps: seq<State>, hiCnt: nat)
    requires MaskIs(charMask[..], masked) && num == |Visible(s, masked)|
    ensures ps == Visible(s, masked) && hiCnt == SumFreq(ps)
  {
    hide Visible;
    hide SumFreq;
    ps, hiCnt := [], 0;
    var j := 0;
    NothingVisible(masked);
    assert s[..0] == [];
    while |ps| != num
      invariant 0 <= j <= |s| && ps == Visible(s[..j], masked) && hiCnt == SumFreq(ps)
      invariant |ps| <= num
      decreases |s| - j
    {
      AllVisible(s, masked, j);
      VisibleAt(s, masked, j);
      AllVisible(s, masked, j + 1);
      if !charMask[s[j].symbol] {
        SumFreqSnoc(ps, s[j]);
        hiCnt := hiCnt + s[j].freq;
        ps := ps + [s[j]];
      }
      j := j + 1;
    }
    AllVisible(s, masked, j);
    assert Visible(s[j..], masked) == [];
  }

  /** The share that covers `count`, and the frequencies before it. */
  method FindShare(ps: seq<State>, count: nat) returns (i: nat, below: nat)
    requires count < SumFreq(ps)
    ensures i == Locate(ps, count) < |ps| && below == SumFreq(ps[..i])
  {
    i, below := 0, 0;
    assert ps[..|ps|] == ps;
    while below + ps[i].freq <= count
      invariant i < |ps| && below == SumFreq(ps[..i]) <= count
      decreases |ps| - i
    {
      SumFreqAt(ps, i);
      below := below + ps[i].freq;
      i := i + 1;
    }
    LocateInside(ps, count, i);
  }

  /** The same from the second state on, with the frequencies up to and including the share found. */
  method FindLaterShare(s: seq<State>, count: nat) returns (i: nat, hiCnt: nat)
    requires 1 <= |s| && s[0].freq <= count
    ensures 1 <= i == Locate(s, count) <= |s|
    ensures hiCnt == if i < |s| then SumFreq(s[..i]) + s[i].freq else SumFreq(s)
  {
    hiCnt := s[0].freq;
    SumFreqAt(s, 0);
    assert s[..|s|] == s;
    i := 1;
    while i < |s|
      invariant 1 <= i <= |s| && hiCnt == SumFreq(s[..i]) <= count
    {
      SumFreqAt(s, i);
      hiCnt := hiCnt + s[i].freq;
      if hiCnt > count {
        LocateInside(s, count, i);
        return;
      }
      i := i + 1;
    }
  }

  /** After asking for the total, any share of it can be decoded. */
  lemma ShareFits(d: Registers, s: seq<State>, total: nat, i: nat)
    requires Ready(d) && i <= |s| && FreqsIn(s, 1, 128) && SumFreq(s) < total <= 0x100_0000
    ensures Fits(Divide(d, total), ShareStep(s, total, i).start, ShareStep(s, total, i).size)
  {
    ShareStepValid(s, total, i);
    DividedFits(d, total, ShareStep(s, total, i).start, ShareStep(s, total, i).size);
  }

  /** Decodes a share once the threshold of `total` was taken from `d`. */
  method DecodeShare(rc: Decoder, ghost d: Registers, ghost s: seq<State>, ghost total: nat, ghost i: nat, start: nat, size: nat)
    requires rc.bottom == 0 && rc.low == 0 && Ready(d) && i <= |s| && FreqsIn(s, 1, 128) && SumFreq(s) < total <= 0x100_0000
    requires rc.Regs() == Divide(d, total) && ShareStep(s, total, i).start == start && ShareStep(s, total, i).size == size
    modifies rc
    ensures rc.Valid7z() && rc.Regs() == AfterShare(d, s, total, i, rc.input)
  {
    ShareFits(d, s, total, i);
    rc.Decode7z(start, size);
  }

  lemma EscapeIndex(prob: nat)
    requires prob < 0x4000
    ensures prob / 0x400 < 16 == |EXP_ESCAPE|
  {
  }
}
