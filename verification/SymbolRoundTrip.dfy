/** Decoding what the symbol coder wrote gives the same symbols, through the same escapes, for whole streams. */
module SymbolRoundTrip {
  import opened Words
  import opened RangeSpec
  import opened RangeDecoder
  import opened RangeRoundTrip
  import opened PpmdContext
  import opened SymbolSpec

  // ---------- one symbol ----------

  lemma {:induction false} EncodeMaskedValid(chain: seq<Context>, level: nat, side: Side, symbol: int)
    requires level < |chain| && UsableChain(chain) && UsableSide(side)
    ensures ValidSteps(EncodeMasked(chain, level, side, symbol).0)
    decreases |chain| - level
  {
    match NextStop(chain, level, side)
    case End(_) =>
    case At(next, left, total, e, asked) =>
      var i := IndexOf(left, symbol);
      ShareStepValid(left, total, i);
      if i == |left| {
        EncodeMaskedValid(chain, next, MissSee(asked, e, total), symbol);
      }
  }

  lemma EncodeValid(chain: seq<Context>, side: Side, symbol: int)
    requires UsableChain(chain) && UsableSide(side)
    ensures ValidSteps(Encode(chain, side, symbol).0)
  {
    var c := chain[0];
    assert Usable(c);
    if |c.states| != 1 {
      ShareStepValid(c.states, c.summFreq, IndexOf(c.states, symbol));
      EncodeMaskedValid(chain, 0, EscapeFirst(side), symbol);
    } else {
      BinIndexBound(chain, side);
      var b := BinIndex(chain, side);
      ProbStaysInside(side.binSumm[b]);
      EncodeMaskedValid(chain, 0, MissBinary(LookBinary(side), b), symbol);
    }
  }

  /** A mirrored share is located by its threshold, and its escape is recognised as one. */
  lemma ShareMirrors(code: seq<Byte>, d: Registers, s: seq<State>, total: nat, i: nat, more: seq<Step>, rest: seq<Step>)
    requires i <= |s| && FreqsIn(s, 1, 128) && SumFreq(s) < total <= 0x100_0000
    requires ValidSteps(more) && ValidSteps(rest) && ValidStep(ShareStep(s, total, i))
    requires Mirrors(code, d, ([ShareStep(s, total, i)] + more) + rest)
    ensures Ready(d)
    ensures Locate(s, Threshold(d, total)) == i && Threshold(d, total) < total
    ensures Mirrors(code, AfterShare(d, s, total, i, code), more + rest)
  {
    var step := ShareStep(s, total, i);
    assert (([step] + more) + rest)[1..] == more + rest;
    if i < |s| {
      LocateInside(s, Threshold(d, total), i);
      SumFreqAt(s, i);
      SumFreqPrefix(s, i + 1, |s|);
      assert s[..|s|] == s;
    }
  }

  lemma {:induction false} MaskedMirrors(code: seq<Byte>, d: Registers, chain: seq<Context>, level: nat, side: Side,
                                         symbol: int, rest: seq<Step>)
    requires level < |chain| && UsableChain(chain) && UsableSide(side) && ValidSteps(rest) && Ready(d)
    requires ValidSteps(EncodeMasked(chain, level, side, symbol).0)
    requires Mirrors(code, d, EncodeMasked(chain, level, side, symbol).0 + rest)
    ensures var (result, after) := DecodeMasked(chain, level, side, d, code);
            result == EncodeMasked(chain, level, side, symbol).1 && Mirrors(code, after, rest)
    decreases |chain| - level
  {
    var (steps, result) := EncodeMasked(chain, level, side, symbol);
    match NextStop(chain, level, side)
    case End(_) =>
      assert steps + rest == rest;
    case At(next, left, total, e, asked) =>
      var i := IndexOf(left, symbol);
      ShareStepValid(left, total, i);
      if i < |left| {
        assert steps == [ShareStep(left, total, i)] + [];
        ShareMirrors(code, d, left, total, i, [], rest);
        assert [] + rest == rest;
      } else {
        var miss := MissSee(asked, e, total);
        EncodeMaskedValid(chain, next, miss, symbol);
        var more := EncodeMasked(chain, next, miss, symbol).0;
        ShareMirrors(code, d, left, total, i, more, rest);
        MaskedMirrors(code, AfterShare(d, left, total, i, code), chain, next, miss, symbol, rest);
      }
  }

  /**
    The decoder finds the symbol the encoder was given (or the end marker) at the same context, takes the same branch
    to the update, and leaves the same estimators, flags and order.
   */
  lemma SymbolMirrors(code: seq<Byte>, d: Registers, chain: seq<Context>, side: Side, symbol: int, rest: seq<Step>)
    requires UsableChain(chain) && UsableSide(side) && ValidSteps(rest) && Ready(d)
    requires ValidSteps(Encode(chain, side, symbol).0)
    requires Mirrors(code, d, Encode(chain, side, symbol).0 + rest)
    ensures var (result, after) := Decode(chain, side, d, code);
            result == Encode(chain, side, symbol).1 && Ready(after) && Mirrors(code, after, rest)
  {
    var c := chain[0];
    assert Usable(c);
    var steps := Encode(chain, side, symbol).0;
    if |c.states| != 1 {
      var i := IndexOf(c.states, symbol);
      ShareStepValid(c.states, c.summFreq, i);
      var more := if i < |c.states| then [] else EncodeMasked(chain, 0, EscapeFirst(side), symbol).0;
      EncodeMaskedValid(chain, 0, EscapeFirst(side), symbol);
      assert steps == [ShareStep(c.states, c.summFreq, i)] + more;
      ShareMirrors(code, d, c.states, c.summFreq, i, more, rest);
      if i < |c.states| {
        assert more + rest == rest;
      } else {
        MaskedMirrors(code, AfterShare(d, c.states, c.summFreq, i, code), chain, 0, EscapeFirst(side), symbol, rest);
      }
    } else {
      BinaryMirrors(code, d, chain, side, symbol, rest);
    }
  }

  lemma BinaryMirrors(code: seq<Byte>, d: Registers, chain: seq<Context>, side: Side, symbol: int, rest: seq<Step>)
    requires UsableChain(chain) && UsableSide(side) && ValidSteps(rest) && Ready(d) && |chain[0].states| == 1
    requires ValidSteps(EncodeBinary(chain, side, symbol).0)
    requires Mirrors(code, d, EncodeBinary(chain, side, symbol).0 + rest)
    ensures var (result, after) := DecodeBinary(chain, side, d, code);
            result == EncodeBinary(chain, side, symbol).1 && Mirrors(code, after, rest)
  {
    hide EncodeMasked;
    hide DecodeMasked;
    hide Usable;
    BinIndexBound(chain, side);
    var b := BinIndex(chain, side);
    var prob := side.binSumm[b];
    ProbStaysInside(prob);
    var steps := EncodeBinary(chain, side, symbol).0;
    if chain[0].states[0].symbol == symbol {
      assert (steps + rest)[1..] == rest;
    } else {
      var miss := MissBinary(LookBinary(side), b);
      EncodeMaskedValid(chain, 0, miss, symbol);
      var more := EncodeMasked(chain, 0, miss, symbol).0;
      assert (steps + rest)[1..] == more + rest;
      MaskedMirrors(code, AfterBit(d, prob, code), chain, 0, miss, symbol, rest);
    }
  }

  /** What the encoder finds is the symbol it was given; it meets the end marker exactly when no context has it. */
  lemma {:induction false} EncodeMaskedFinds(chain: seq<Context>, level: nat, side: Side, symbol: int)
    requires level < |chain| && UsableChain(chain) && UsableSide(side)
    requires symbol !in Symbols(chain[level].states)
    ensures match EncodeMasked(chain, level, side, symbol).1
            case Found(at, x, _, _) => x == symbol && at < |chain| && symbol in Symbols(chain[at].states)
            case EndMarker(_) => symbol !in Symbols(chain[|chain| - 1].states)
            case Corrupt(_) => false
    decreases |chain| - level
  {
    match NextStop(chain, level, side)
    case End(_) =>
      SameToTheEnd(chain, level, side.orderFall);
    case At(next, left, total, e, asked) =>
      IndexOfVisible(chain[next].states, Symbols(chain[level].states), symbol);
      if IndexOf(left, symbol) == |left| {
        EncodeMaskedFinds(chain, next, MissSee(asked, e, total), symbol);
      }
  }

  /** Contexts with as many symbols as ruled out have no others. */
  lemma {:induction false} SameToTheEnd(chain: seq<Context>, level: nat, orderFall: nat)
    requires level < |chain| && UsableChain(chain)
    requires Climb(chain, level, |chain[level].states|, orderFall).0 == |chain|
    ensures Symbols(chain[|chain| - 1].states) == Symbols(chain[level].states)
    decreases |chain| - level
  {
    if level + 1 < |chain| {
      var inner, outer := chain[level].states, chain[level + 1].states;
      assert Usable(chain[level]) && Usable(chain[level + 1]);
      CountSymbols(inner);
      CountSymbols(outer);
      EqualSize(Symbols(inner), Symbols(outer));
      SameToTheEnd(chain, level + 1, orderFall + 1);
    }
  }

  lemma EqualSize<T>(a: set<T>, b: set<T>)
    requires a <= b && |a| == |b|
    ensures a == b
  {
    assert b == a + (b - a);
    assert |b - a| == 0;
  }

  // ---------- a whole stream ----------

  /**
    The model as the two programs share it: `view` gives the contexts and side state for the next symbol, `update` is
    whatever the update procedures do with what was found.
   */
  datatype Program<!M> = Program(view: M -> (seq<Context>, Side), update: (M, Result) -> M)

  /** The model is in a usable state before every symbol of the message. */
  ghost predicate StaysUsable<M>(p: Program<M>, m: M, message: seq<int>)
    decreases |message|
  {
    message != [] ==>
      && UsableChain(p.view(m).0) && UsableSide(p.view(m).1)
      && StaysUsable(p, p.update(m, Encode(p.view(m).0, p.view(m).1, message[0]).1), message[1..])
  }

  ghost function EncodeAll<M>(p: Program<M>, m: M, message: seq<int>): seq<Step>
    requires StaysUsable(p, m, message)
    decreases |message|
  {
    if message == [] then []
    else
      var (steps, result) := Encode(p.view(m).0, p.view(m).1, message[0]);
      steps + EncodeAll(p, p.update(m, result), message[1..])
  }

  /**
    Decodes `n` symbols, going through the update after each one, an end marker too, as the encoder did; only a decoder
    that is no longer ready, after corrupt data, stops early.
   */
  ghost function DecodeAll<M>(p: Program<M>, m: M, n: nat, d: Registers, input: seq<Byte>): seq<Result>
    decreases n
  {
    if n == 0 || !(UsableChain(p.view(m).0) && UsableSide(p.view(m).1) && Ready(d)) then []
    else
      var (result, after) := Decode(p.view(m).0, p.view(m).1, d, input);
      [result] + DecodeAll(p, p.update(m, result), n - 1, after, input)
  }

  /** What the encoder found, symbol by symbol. */
  ghost function FoundAll<M>(p: Program<M>, m: M, message: seq<int>): seq<Result>
    requires StaysUsable(p, m, message)
    decreases |message|
  {
    if message == [] then []
    else
      var result := Encode(p.view(m).0, p.view(m).1, message[0]).1;
      [result] + FoundAll(p, p.update(m, result), message[1..])
  }

  lemma {:induction false} EncodeAllValid<M>(p: Program<M>, m: M, message: seq<int>)
    requires StaysUsable(p, m, message)
    ensures ValidSteps(EncodeAll(p, m, message))
    decreases |message|
  {
    if message == [] {
    } else {
      EncodeValid(p.view(m).0, p.view(m).1, message[0]);
      EncodeAllValid(p, p.update(m, Encode(p.view(m).0, p.view(m).1, message[0]).1), message[1..]);
    }
  }

  lemma EncodeAllSplit<M>(p: Program<M>, m: M, message: seq<int>)
    requires message != [] && StaysUsable(p, m, message)
    ensures var (chain, side) := p.view(m);
            var (steps, result) := Encode(chain, side, message[0]);
            && ValidSteps(steps) && StaysUsable(p, p.update(m, result), message[1..])
            && EncodeAll(p, m, message) == steps + EncodeAll(p, p.update(m, result), message[1..])
  {
    hide Encode;
    hide UsableChain;
    hide UsableSide;
    EncodeValid(p.view(m).0, p.view(m).1, message[0]);
  }

  lemma {:induction false} StreamMirrors<M>(p: Program<M>, m: M, message: seq<int>, code: seq<Byte>, d: Registers)
    requires StaysUsable(p, m, message) && ValidSteps(EncodeAll(p, m, message)) && Ready(d)
    requires Mirrors(code, d, EncodeAll(p, m, message))
    ensures DecodeAll(p, m, |message|, d, code) == FoundAll(p, m, message)
    decreases |message|
  {
    hide Encode;
    hide Decode;
    hide UsableChain;
    hide UsableSide;
    hide Mirrors;
    hide Ready;
    if message == [] {
    } else {
      var (chain, side) := p.view(m);
      var (steps, result) := Encode(chain, side, message[0]);
      var next := p.update(m, result);
      var rest := EncodeAll(p, next, message[1..]);
      EncodeAllSplit(p, m, message);
      EncodeAllValid(p, next, message[1..]);
      SymbolMirrors(code, d, chain, side, message[0], rest);
      StreamMirrors(p, next, message[1..], code, Decode(chain, side, d, code).1);
    }
  }

  /** The symbol a result stands for: -1 for the end marker, -2 for corrupt data. */
  function SymbolOf(r: Result): int {
    match r
    case Found(_, symbol, _, _) => symbol
    case EndMarker(_) => -1
    case Corrupt(_) => -2
  }

  lemma {:induction false} FoundAllIsMessage<M>(p: Program<M>, m: M, message: seq<int>)
    requires StaysUsable(p, m, message) && forall i :: 0 <= i < |message| ==> -1 <= message[i] < 256
    ensures |FoundAll(p, m, message)| == |message|
    ensures forall i :: 0 <= i < |message| ==> SymbolOf(FoundAll(p, m, message)[i]) == message[i]
    decreases |message|
  {
    if message == [] {
    } else {
      var (chain, side) := p.view(m);
      FindsItself(chain, side, message[0]);
      FoundAllIsMessage(p, p.update(m, Encode(chain, side, message[0]).1), message[1..]);
    }
  }

  lemma FirstFinds(chain: seq<Context>, side: Side, symbol: int)
    requires UsableChain(chain) && UsableSide(side) && -1 <= symbol < 256 && |chain[0].states| != 1
    requires 0 <= symbol ==> symbol in Symbols(chain[|chain| - 1].states)
    ensures SymbolOf(EncodeFirst(chain, side, symbol).1) == symbol
  {
    hide EncodeMasked;
    assert Usable(chain[0]);
    if IndexOf(chain[0].states, symbol) == |chain[0].states| {
      EncodeMaskedFinds(chain, 0, EscapeFirst(side), symbol);
    }
  }

  lemma BinaryFinds(chain: seq<Context>, side: Side, symbol: int)
    requires UsableChain(chain) && UsableSide(side) && -1 <= symbol < 256 && |chain[0].states| == 1
    requires 0 <= symbol ==> symbol in Symbols(chain[|chain| - 1].states)
    ensures SymbolOf(EncodeBinary(chain, side, symbol).1) == symbol
  {
    hide EncodeMasked;
    hide Usable;
    hide ProbAfter1;
    if chain[0].states[0].symbol != symbol {
      BinIndexBound(chain, side);
      var b := BinIndex(chain, side);
      ProbStaysInside(side.binSumm[b]);
      EncodeMaskedFinds(chain, 0, MissBinary(LookBinary(side), b), symbol);
    }
  }

  /** The root knows all 256 symbols, so only -1 reaches the end of the chain. */
  lemma FindsItself(chain: seq<Context>, side: Side, symbol: int)
    requires UsableChain(chain) && UsableSide(side) && -1 <= symbol < 256
    ensures SymbolOf(Encode(chain, side, symbol).1) == symbol
  {
    hide UpTo;
    hide EncodeFirst;
    hide EncodeBinary;
    assert Usable(chain[|chain| - 1]);
    RootKnowsAll(chain[|chain| - 1]);
    if |chain[0].states| != 1 {
      FirstFinds(chain, side, symbol);
    } else {
      BinaryFinds(chain, side, symbol);
    }
  }

  lemma RootKnowsAll(root: Context)
    requires Usable(root) && |root.states| == 256
    ensures Symbols(root.states) == UpTo(256)
  {
    CountSymbols(root.states);
    EqualSize(Symbols(root.states), UpTo(256));
  }

  /**
    The codec law: for every message of bytes and end markers, decoding the flushed code of the message gives back the
    message, whatever the update procedures do, as long as they keep the model usable.
   */
  lemma StreamRoundTrip<M>(p: Program<M>, m: M, message: seq<int>)
    requires StaysUsable(p, m, message) && forall i :: 0 <= i < |message| ==> -1 <= message[i] < 256
    ensures ValidSteps(EncodeAll(p, m, message))
    ensures var code := Code(EncodeAll(p, m, message));
            var decoded := DecodeAll(p, m, |message|, Opened(code, 1, 0), code);
            && decoded == FoundAll(p, m, message)
            && |decoded| == |message|
            && forall i :: 0 <= i < |message| ==> SymbolOf(decoded[i]) == message[i]
  {
    EncodeAllValid(p, m, message);
    var steps := EncodeAll(p, m, message);
    RoundTrip(steps);
    StreamMirrors(p, m, message, Code(steps), Opened(Code(steps), 1, 0));
    FoundAllIsMessage(p, m, message);
  }
}
