/**
  The coder and the frequency model in one run: what is found updates the context it is found in, its suffix, and the
  contexts that did not have it. Which chain comes next depends on successors, which are left to a given choice.
 */
module AdaptiveModel {
  import opened Words
  import opened PpmdContext
  import opened SymbolSpec
  import opened FrequencySpec
  import RangeSpec
  import RangeDecoder
  import opened SymbolRoundTrip

  /** The chain from MinContext on, the side state, and whatever else (`memory`) the choice of the next chain looks at. */
  datatype Model<T> = Model(chain: seq<Context>, side: Side, initRL: int, memory: T)

  /** Whether a found state at full order already has a successor, and where the model goes from what it has learned. */
  datatype Choice<!T> = Choice(skips: (Model<T>, Result) -> bool, next: (Model<T>, Result) -> Model<T>)

  ghost predicate Fit<T>(m: Model<T>) {
    && KeptChain(m.chain) && m.chain != [] && |m.chain[|m.chain| - 1].states| == 256 && UsableSide(m.side)
    && (|m.chain| == 1 ==> m.side.orderFall != 0)
  }

  // ---------- what a result says ----------

  /** Contexts passed over in climbing have the symbols of the one climbed from. */
  lemma {:induction false} PassedSame(chain: seq<Context>, level: nat, n: nat, orderFall: nat, i: nat)
    requires level < |chain| && UsableChain(chain) && |chain[level].states| == n
    requires level <= i < Climb(chain, level, n, orderFall).0
    ensures Symbols(chain[i].states) == Symbols(chain[level].states)
    decreases |chain| - level
  {
    if level < i {
      assert Usable(chain[level]) && Usable(chain[level + 1]);
      CountSymbols(chain[level].states);
      CountSymbols(chain[level + 1].states);
      EqualSize(Symbols(chain[level].states), Symbols(chain[level + 1].states));
      PassedSame(chain, level + 1, n, orderFall + 1, i);
    }
  }

  /** A symbol found after escapes from `level`. */
  ghost predicate FoundAbove(chain: seq<Context>, level: nat, side: Side, r: Result)
    requires level < |chain|
  {
    match r
    case Found(at, x, how, s) =>
      && how == Escaped && level < at < |chain| && UsableSide(s) && s.orderFall == side.orderFall + (at - level)
      && s.initEsc == side.initEsc && x in Symbols(chain[at].states) && 1 < |chain[at].states|
      && forall i :: level <= i < at ==> x !in Symbols(chain[i].states)
    case EndMarker(s) => UsableSide(s) && s.orderFall > side.orderFall
    case Corrupt(_) => false
  }

  lemma Unmissed(s: Side, e: nat, total: nat)
    requires e < |s.see|
    ensures MissSee(s, e, total).orderFall == HitSee(s, e).orderFall == s.orderFall
    ensures MissSee(s, e, total).initEsc == HitSee(s, e).initEsc == s.initEsc
  {
  }

  /** A stop is as many steps of the order away as links were climbed. */
  lemma StopOrder(chain: seq<Context>, level: nat, side: Side)
    requires level < |chain| && UsableChain(chain) && UsableSide(side)
    ensures match NextStop(chain, level, side)
            case End(up) => up.orderFall > side.orderFall
            case At(next, _, _, _, asked) =>
              && next == Climb(chain, level, |chain[level].states|, side.orderFall).0
              && asked.orderFall == side.orderFall + (next - level) && asked.initEsc == side.initEsc
  {
    hide EscFreq;
    hide SumFreq;
    hide Left;
    hide SeeShare;
  }

  lemma FoundFurther(chain: seq<Context>, level: nat, next: nat, side: Side, asked: Side, r: Result)
    requires level < next < |chain| && FoundAbove(chain, next, asked, r)
    requires asked.orderFall == side.orderFall + (next - level) && asked.initEsc == side.initEsc
    requires r.Found? ==> forall i :: level <= i < next ==> r.symbol !in Symbols(chain[i].states)
    ensures FoundAbove(chain, level, side, r)
  {
    hide Symbols;
    hide UsableSide;
  }

  lemma {:induction false} MaskedFinds(chain: seq<Context>, level: nat, side: Side, symbol: int)
    requires level < |chain| && UsableChain(chain) && UsableSide(side) && symbol !in Symbols(chain[level].states)
    ensures FoundAbove(chain, level, side, EncodeMasked(chain, level, side, symbol).1)
    decreases |chain| - level
  {
    hide Symbols;
    hide UsableSide;
    hide SumFreq;
    hide IndexOf;
    hide HitSee;
    hide MissSee;
    hide NextStop;
    var n := |chain[level].states|;
    StopOrder(chain, level, side);
    match NextStop(chain, level, side)
    case End(up) =>
    case At(next, left, total, e, asked) =>
      assert Usable(chain[level]) && Usable(chain[next]);
      LeftFacts(chain, level, next);
      IndexOfVisible(chain[next].states, Symbols(chain[level].states), symbol);
      forall i | level <= i < next ensures symbol !in Symbols(chain[i].states) {
        PassedSame(chain, level, n, side.orderFall, i);
      }
      if IndexOf(left, symbol) == |left| {
        Unmissed(asked, e, total);
        MaskedFinds(chain, next, MissSee(asked, e, total), symbol);
        var r := EncodeMasked(chain, next, MissSee(asked, e, total), symbol).1;
        assert EncodeMasked(chain, level, side, symbol).1 == r;
        EncodeMaskedFinds(chain, next, MissSee(asked, e, total), symbol);
        FoundFurther(chain, level, next, side, MissSee(asked, e, total), r);
      } else {
        Unmissed(asked, e, total);
      }
  }

  /** What is found, where, and in which way; the order counts the escapes. */
  ghost predicate Sensible(chain: seq<Context>, side: Side, r: Result)
    requires chain != []
  {
    match r
    case Found(k, x, how, s) =>
      && k < |chain| && UsableSide(s) && s.orderFall == side.orderFall + k && x in Symbols(chain[k].states)
      && (forall i :: 0 <= i < k ==> x !in Symbols(chain[i].states))
      && WayFits(chain[k], k, x, how)
      && (how == Escaped && |chain[0].states| == 1 ==> 0 < s.initEsc <= 25)
    case EndMarker(s) => UsableSide(s) && s.orderFall > side.orderFall
    case Corrupt(_) => false
  }

  ghost predicate WayFits(c: Context, k: nat, x: int, how: How) {
    match how
    case First => k == 0 && 1 < |c.states| && IndexOf(c.states, x) == 0
    case Later => k == 0 && 0 < IndexOf(c.states, x) < |c.states|
    case Binary => k == 0 && |c.states| == 1 && IndexOf(c.states, x) == 0
    case Escaped => 0 < k && 1 < |c.states| && IndexOf(c.states, x) < |c.states|
  }

  lemma FoundAt(s: seq<State>, x: int)
    ensures IndexOf(s, x) < |s| <==> x in Symbols(s)
  {
    var i := IndexOf(s, x);
    if i < |s| {
      assert s[i].symbol as int in Symbols(s);
    }
  }

  lemma MissEsc(side: Side, b: nat)
    requires UsableSide(side) && b < |side.binSumm|
    ensures UsableSide(MissBinary(LookBinary(side), b)) && UsableSide(HitBinary(LookBinary(side), b))
    ensures 0 < MissBinary(LookBinary(side), b).initEsc <= 25
    ensures MissBinary(LookBinary(side), b).orderFall == HitBinary(LookBinary(side), b).orderFall == side.orderFall
  {
    ProbStaysInside(side.binSumm[b]);
  }

  lemma EncodeSensible(chain: seq<Context>, side: Side, symbol: int)
    requires UsableChain(chain) && UsableSide(side)
    ensures Sensible(chain, side, Encode(chain, side, symbol).1)
  {
    hide EncodeMasked;
    hide Symbols;
    hide HitBinary;
    hide MissBinary;
    hide BinIndex;
    var c := chain[0];
    assert Usable(c);
    FoundAt(c.states, symbol);
    if |c.states| == 1 {
      BinIndexBound(chain, side);
      var b := BinIndex(chain, side);
      MissEsc(side, b);
      if c.states[0].symbol == symbol {
        assert IndexOf(c.states, symbol) == 0;
      } else {
        AboveSensible(chain, MissBinary(LookBinary(side), b), symbol);
      }
    } else if IndexOf(c.states, symbol) == |c.states| {
      AboveSensible(chain, EscapeFirst(side), symbol);
    }
  }

  lemma AboveSensible(chain: seq<Context>, side: Side, symbol: int)
    requires UsableChain(chain) && UsableSide(side) && symbol !in Symbols(chain[0].states)
    requires |chain[0].states| == 1 ==> 0 < side.initEsc <= 25
    ensures Sensible(chain, side, EncodeMasked(chain, 0, side, symbol).1)
  {
    hide EncodeMasked;
    MaskedFinds(chain, 0, side, symbol);
    var r := EncodeMasked(chain, 0, side, symbol).1;
    if r.Found? {
      FoundAt(chain[r.level].states, r.symbol);
    }
  }

  // ---------- what is learned ----------

  /** The context it was found in, and the place of the state after the update. */
  function Updated(c: Context, found: nat, how: How, orderFall: nat): (Context, nat)
    requires found < |c.states| && (how == Later ==> 0 < found)
  {
    match how
    case First => AfterFirst(c, orderFall)
    case Later => AfterLater(c, found, orderFall)
    case Binary =>
      var x := c.states[0];
      (c.(states := c.states[0 := x.(freq := x.freq + Flag(x.freq < 128))]), found)
    case Escaped => AfterEscaped(c, found, orderFall)
  }

  lemma UpdatedKeeps(c: Context, k: nat, x: int, how: How, orderFall: nat)
    requires KeptContext(c) && WayFits(c, k, x, how)
    ensures UpdateKeeps(c, IndexOf(c.states, x), orderFall, Updated(c, IndexOf(c.states, x), how, orderFall))
  {
    var found := IndexOf(c.states, x);
    match how
    case First => FirstKeeps(c, orderFall);
    case Later => LaterKeeps(c, found, orderFall);
    case Binary =>
      OneSymbol(c.states);
      OneSymbol(Updated(c, found, how, orderFall).0.states);
    case Escaped => EscapedKeeps(c, found, orderFall);
  }

  /** A context in a chain gives way to one with its symbols; the first one may lose some. */
  lemma ReplaceKeeps(chain: seq<Context>, k: nat, c: Context)
    requires KeptChain(chain) && k < |chain| && KeptContext(c) && 1 <= |c.states|
    requires Symbols(c.states) <= Symbols(chain[k].states) && (k > 0 ==> Symbols(c.states) == Symbols(chain[k].states))
    ensures KeptChain(chain[k := c])
  {
    hide Symbols;
    hide KeptContext;
    var r := chain[k := c];
    forall i | 0 < i < |r| ensures Symbols(r[i - 1].states) <= Symbols(r[i].states) {
      assert Symbols(chain[i - 1].states) <= Symbols(chain[i].states);
    }
  }

  /** An update keeps the chain, when below the first context the order is not full. */
  lemma UpdateKeepsChain(chain: seq<Context>, k: nat, found: nat, orderFall: nat, r: (Context, nat))
    requires KeptChain(chain) && k < |chain| && found < |chain[k].states|
    requires UpdateKeeps(chain[k], found, orderFall, r) && (k > 0 ==> orderFall != 0)
    ensures KeptChain(chain[k := r.0])
  {
    hide Symbols;
    ReplaceKeeps(chain, k, r.0);
  }

  /** The chain with a new last state in the first `k` contexts. */
  function AppendAll(
      chain: seq<Context>, k: nat, symbol: Byte, found: nat, s0: nat, ns: nat, initEsc: nat): (r: seq<Context>)
    ensures |r| == |chain|
  {
    seq(|chain|, i requires 0 <= i < |chain| => if i < k then Append(chain[i], symbol, found, s0, ns, initEsc) else chain[i])
  }

  /** A state that is not frequent yet is noted in the suffix context too. */
  function SuffixBumped(chain: seq<Context>, k: nat, x: State): (r: seq<Context>)
    requires k < |chain| && (k + 1 < |chain| ==> chain[k + 1].states != [])
    ensures |r| == |chain|
  {
    if x.freq < 31 && k + 1 < |chain| then chain[k + 1 := AfterSuffix(chain[k + 1], x.symbol)] else chain
  }

  lemma SuffixBumpedKeeps(chain: seq<Context>, k: nat, x: State)
    requires KeptChain(chain) && k < |chain| && x.symbol as int in Symbols(chain[k].states)
    ensures k + 1 < |chain| ==> chain[k + 1].states != []
    ensures var r := SuffixBumped(chain, k, x);
            && KeptChain(r) && (forall i :: 0 <= i <= k ==> r[i] == chain[i])
            && Symbols(r[|r| - 1].states) == Symbols(chain[|r| - 1].states)
  {
    hide AfterSuffix;
    hide KeptContext;
    hide Symbols;
    if k + 1 < |chain| {
      assert KeptContext(chain[k + 1]) && Symbols(chain[k].states) <= Symbols(chain[k + 1].states);
      SuffixThere(chain[k + 1], x.symbol);
      ReplaceKeeps(chain, k + 1, AfterSuffix(chain[k + 1], x.symbol));
    }
  }

  /** The suffix, bumped unless the found state is frequent, and the contexts before, if the order is not full. */
  function Spread(chain: seq<Context>, k: nat, at: nat, side: Side): seq<Context>
    requires k < |chain| && at < |chain[k].states| && (k + 1 < |chain| ==> chain[k + 1].states != [])
  {
    var x := chain[k].states[at];
    var ns := |chain[k].states|;
    var s0 := Less(chain[k].summFreq, ns + x.freq - 1);
    var bumped := SuffixBumped(chain, k, x);
    if side.orderFall == 0 then bumped else AppendAll(bumped, k, x.symbol, x.freq, s0, ns, side.initEsc)
  }

  function Noted(side: Side, how: How, c: Context, initRL: int): Side {
    match how
    case First =>
      var hit := if c.states != [] then Flag(2 * c.states[0].freq > c.summFreq) else 0;
      side.(prevSuccess := hit, runLength := side.runLength + hit)
    case Later => side
    case Binary => side.(prevSuccess := 1, runLength := side.runLength + 1)
    case Escaped => side.(runLength := initRL)
  }

  predicate Learnable(chain: seq<Context>, r: Result) {
    && r.Found? && r.level < |chain| && IndexOf(chain[r.level].states, r.symbol) < |chain[r.level].states|
    && (r.how == Later ==> 0 < IndexOf(chain[r.level].states, r.symbol))
    && (forall c :: c in chain ==> c.states != [])
  }

  /** Update1, Update1_0, UpdateBin or Update2, then UpdateModel unless a successor at full order is `skipped` to. */
  function Learn<T>(m: Model<T>, r: Result, skipped: bool): Model<T> {
    if Learnable(m.chain, r) then
      var c := m.chain[r.level];
      var (c', at) := Updated(c, IndexOf(c.states, r.symbol), r.how, r.side.orderFall);
      var chain := m.chain[r.level := c'];
      var side := Noted(r.side, r.how, c, m.initRL);
      if at < |c'.states| && !(r.how != Escaped && side.orderFall == 0 && skipped) then
        m.(chain := Spread(chain, r.level, at, side), side := side)
      else m.(chain := chain, side := side)
    else if r.EndMarker? then m.(side := r.side)
    else m
  }

  lemma NotedUsable(side: Side, how: How, c: Context, initRL: int)
    requires UsableSide(side)
    ensures UsableSide(Noted(side, how, c, initRL))
  {
  }

  /** The frequency of a first single state is all that the start value of an escape share is for. */
  lemma EscOnlyForOne(c: Context, symbol: Byte, found: nat, s0: nat, ns: nat, e: nat, f: nat)
    requires |c.states| != 1
    ensures Append(c, symbol, found, s0, ns, e) == Append(c, symbol, found, s0, ns, f)
  {
  }

  /** No later context is smaller than the first. */
  lemma OneFirst(chain: seq<Context>, i: nat)
    requires KeptChain(chain) && i < |chain| && |chain[i].states| == 1
    ensures |chain[0].states| == 1
  {
    KeptContained(chain, 0, i);
    KeptDistinct(chain[0]);
    KeptDistinct(chain[i]);
    CountSymbols(chain[0].states);
    CountSymbols(chain[i].states);
    SubsetSize(Symbols(chain[0].states), Symbols(chain[i].states));
  }

  lemma {:induction false} KeptContained(chain: seq<Context>, i: nat, j: nat)
    requires KeptChain(chain) && i <= j < |chain|
    ensures Symbols(chain[i].states) <= Symbols(chain[j].states)
    decreases j - i
  {
    hide Symbols;
    hide KeptContext;
    if i < j {
      KeptContained(chain, i, j - 1);
      assert Symbols(chain[j - 1].states) <= Symbols(chain[j].states);
    }
  }

  lemma AppendAllKeeps(chain: seq<Context>, k: nat, symbol: Byte, found: nat, s0: nat, ns: nat, initEsc: nat)
    requires KeptChain(chain) && k < |chain| && symbol as int in Symbols(chain[k].states)
    requires forall i :: 0 <= i < k ==> symbol as int !in Symbols(chain[i].states)
    requires k > 0 && |chain[0].states| == 1 ==> 0 < initEsc <= 25
    ensures KeptChain(AppendAll(chain, k, symbol, found, s0, ns, initEsc))
    ensures AppendAll(chain, k, symbol, found, s0, ns, initEsc)[k..] == chain[k..]
  {
    hide Append;
    hide Symbols;
    hide KeptContext;
    var now := AppendAll(chain, k, symbol, found, s0, ns, initEsc);
    var e := if |chain[0].states| == 1 && k > 0 then initEsc else 1;
    forall i | 0 <= i < k ensures now[i] == Append(chain[i], symbol, found, s0, ns, e) {
      if |chain[i].states| == 1 {
        OneFirst(chain, i);
      } else {
        EscOnlyForOne(chain[i], symbol, found, s0, ns, initEsc, e);
      }
    }
    AppendKeepsChain(chain, now, k, symbol, found, s0, ns, e);
  }

  lemma SpreadKeeps(chain: seq<Context>, k: nat, at: nat, side: Side)
    requires KeptChain(chain) && k < |chain| && at < |chain[k].states|
    requires forall i :: 0 <= i < k ==> chain[k].states[at].symbol as int !in Symbols(chain[i].states)
    requires k > 0 && |chain[0].states| == 1 ==> 0 < side.initEsc <= 25
    ensures k + 1 < |chain| ==> chain[k + 1].states != []
    ensures var r := Spread(chain, k, at, side);
            && KeptChain(r) && |r| == |chain| && r[k] == chain[k] && (k + 1 < |r| ==>
              Symbols(r[|r| - 1].states) == Symbols(chain[|r| - 1].states))
  {
    hide AppendAll;
    hide SuffixBumped;
    hide Less;
    var x := chain[k].states[at];
    assert x.symbol as int in Symbols(chain[k].states);
    hide Symbols;
    SuffixBumpedKeeps(chain, k, x);
    hide KeptChain;
    if side.orderFall != 0 {
      var ns := |chain[k].states|;
      AppendAllKeeps(SuffixBumped(chain, k, x), k, x.symbol, x.freq, Less(chain[k].summFreq, ns + x.freq - 1), ns,
                     side.initEsc);
    }
  }

  lemma SuffixThere(c: Context, symbol: Byte)
    requires KeptContext(c) && symbol as int in Symbols(c.states)
    ensures c.states != [] && KeptContext(AfterSuffix(c, symbol)) && 1 <= |AfterSuffix(c, symbol).states|
    ensures Symbols(AfterSuffix(c, symbol).states) == Symbols(c.states)
  {
    SuffixKeeps(c, symbol);
    if AfterSuffix(c, symbol).states == [] {
      assert symbol as int in Symbols(AfterSuffix(c, symbol).states);
    }
  }

  lemma FullSize(c: Context, d: Context)
    requires KeptContext(c) && KeptContext(d) && Symbols(c.states) == Symbols(d.states)
    ensures |c.states| == |d.states|
  {
    KeptDistinct(c);
    KeptDistinct(d);
    CountSymbols(c.states);
    CountSymbols(d.states);
  }

  /** Everything the model learns from what was coded keeps it fit, with every context fit and the root full. */
  lemma LearnKeeps<T>(m: Model<T>, r: Result, skipped: bool)
    requires Fit(m) && Sensible(m.chain, m.side, r)
    ensures Fit(Learn(m, r, skipped))
  {
    if r.Found? {
      FoundKeeps(m, r, skipped);
    }
  }

  lemma FoundKeeps<T>(m: Model<T>, r: Result, skipped: bool)
    requires Fit(m) && Sensible(m.chain, m.side, r) && r.Found?
    ensures Fit(Learn(m, r, skipped))
  {
    hide Append;
    hide AfterSuffix;
    hide KeptContext;
    hide Symbols;
    hide Spread;
    hide Updated;
    hide Noted;
    hide UsableSide;
    var k, c := r.level, m.chain[r.level];
    assert forall i :: 0 <= i < |m.chain| ==> KeptContext(m.chain[i]) && 1 <= |m.chain[i].states|;
    FoundAt(c.states, r.symbol);
    var found := IndexOf(c.states, r.symbol);
    assert Learnable(m.chain, r);
    var u := Updated(c, found, r.how, r.side.orderFall);
    UpdatedKeeps(c, k, r.symbol, r.how, r.side.orderFall);
    UpdateKeepsChain(m.chain, k, found, r.side.orderFall, u);
    NotedUsable(r.side, r.how, c, m.initRL);
    NotedOrder(r.side, r.how, c, m.initRL);
    var chain := m.chain[k := u.0];
    var side := Noted(r.side, r.how, c, m.initRL);
    var last := |m.chain| - 1;
    if k == last {
      FullSize(u.0, c);
    }
    if !(r.how != Escaped && side.orderFall == 0 && skipped) {
      SpreadKeeps(chain, k, u.1, side);
      if k < last {
        FullSize(Spread(chain, k, u.1, side)[last], chain[last]);
      }
    }
  }

  lemma NotedOrder(side: Side, how: How, c: Context, initRL: int)
    ensures Noted(side, how, c, initRL).orderFall == side.orderFall && Noted(side, how, c, initRL).initEsc == side.initEsc
  {
  }

  // ---------- whole runs ----------

  /** The choice goes from fit models to fit models. */
  ghost predicate Sound<T(!new)>(choice: Choice<T>) {
    forall m: Model<T>, r: Result :: Fit(m) ==> Fit(choice.next(m, r))
  }

  function Adaptive<T>(choice: Choice<T>): Program<Model<T>> {
    Program((m: Model<T>) => (m.chain, m.side), (m: Model<T>, r: Result) => choice.next(Learn(m, r, choice.skips(m, r)), r))
  }

  lemma {:induction false} AdaptiveStays<T(!new)>(choice: Choice<T>, m: Model<T>, message: seq<int>)
    requires Sound(choice) && Fit(m)
    ensures StaysUsable(Adaptive(choice), m, message)
    decreases |message|
  {
    hide Learn;
    hide Encode;
    if message != [] {
      KeptChainUsable(m.chain);
      EncodeSensible(m.chain, m.side, message[0]);
      var r := Encode(m.chain, m.side, message[0]).1;
      LearnKeeps(m, r, choice.skips(m, r));
      AdaptiveStays(choice, choice.next(Learn(m, r, choice.skips(m, r)), r), message[1..]);
    }
  }

  /**
    The codec with its frequency model: from a fit model, and for every choice of successors that stays with fit models,
    every message of bytes and end markers comes back from its flushed code.
   */
  lemma AdaptiveRoundTrip<T(!new)>(choice: Choice<T>, m: Model<T>, message: seq<int>)
    requires Sound(choice) && Fit(m) && forall i :: 0 <= i < |message| ==> -1 <= message[i] < 256
    ensures var p := Adaptive(choice);
            && StaysUsable(p, m, message) && RangeSpec.ValidSteps(EncodeAll(p, m, message))
            && var code := RangeSpec.Code(EncodeAll(p, m, message));
            var decoded := DecodeAll(p, m, |message|, RangeDecoder.Opened(code, 1, 0), code);
            |decoded| == |message| && forall i :: 0 <= i < |message| ==> SymbolOf(decoded[i]) == message[i]
  {
    AdaptiveStays(choice, m, message);
    StreamRoundTrip(Adaptive(choice), m, message);
  }
}
