/** What coding one symbol leaves behind: frequencies along the whole chain, and what the next question looks at. */
module LearningLaws {
  import opened Words
  import opened PpmdContext
  import opened SymbolSpec
  import opened FrequencySpec
  import opened FrequencyLaws
  import opened AdaptiveModel
  import opened ContextTree

  // ---------- the context a symbol was found in ----------

  /** A single state gains one up to 128; the other updates have their laws. */
  lemma BinaryLearns(c: Context, orderFall: nat)
    requires KeptContext(c) && |c.states| == 1
    ensures var r, f := Updated(c, 0, Binary, orderFall), c.states[0].freq;
            && r.1 == 0 && r.0.summFreq == c.summFreq && SamePlaces(c.states, r.0.states)
            && Favours(c.states, c.states[0].symbol, if f < 128 then 1 else 0, r.0.states)
  {
    var r := Updated(c, 0, Binary, orderFall);
    assert c.states[..0] == [] && r.0.states[..0] == [];
  }

  /** Whatever way it was found, frequencies and places after the update are those the laws tell. */
  lemma UpdatedLearns(c: Context, k: nat, x: Byte, how: How, orderFall: nat)
    requires KeptContext(c) && WayFits(c, k, x, how) && how != Binary
    ensures var found := IndexOf(c.states, x);
            var r := Updated(c, found, how, orderFall);
            Learned(c, x, orderFall, r.0) && Placed(c, found, how == Later, r)
  {
    hide Learned;
    hide Placed;
    hide KeptContext;
    var found := IndexOf(c.states, x);
    match how
    case First =>
      FirstLearns(c, orderFall);
      FirstPlaces(c, orderFall);
    case Later =>
      LaterLearns(c, found, orderFall);
      LaterPlaces(c, found, orderFall);
    case Escaped =>
      EscapedLearns(c, found, orderFall);
      EscapedPlaces(c, found, orderFall);
  }

  // ---------- the contexts around it ----------

  /**
    UpdateModel along the chain, once the `at`-th state of the `k`-th context was found: below 31 it is noted in the
    suffix too, and if the order is not full all contexts before get the symbol. `rest` is what the others have.
   */
  lemma SpreadLearns(chain: seq<Context>, k: nat, at: nat, side: Side) returns (rest: nat)
    requires KeptChain(chain) && k < |chain| && at < |chain[k].states| && 1 < |chain[k].states|
    requires k + 1 < |chain| ==> chain[k + 1].states != []
    ensures rest + |chain[k].states| + chain[k].states[at].freq == chain[k].summFreq + 1
    ensures var r, x := Spread(chain, k, at, side), chain[k].states[at];
            && |r| == |chain| && r[k] == chain[k] && (forall i :: k + 1 < i < |chain| ==> r[i] == chain[i])
            && (k + 1 < |chain| ==>
                  r[k + 1] == if x.freq < 31 then AfterSuffix(chain[k + 1], x.symbol) else chain[k + 1])
            && (side.orderFall == 0 ==> forall i :: 0 <= i < k ==> r[i] == chain[i])
            && (side.orderFall != 0 ==> forall i :: 0 <= i < k ==>
                  Appends(chain[i], x.symbol, x.freq, rest, |chain[k].states|, side.initEsc, r[i]))
  {
    hide Append;
    hide AfterSuffix;
    hide Appends;
    hide Symbols;
    var x, ns := chain[k].states[at], |chain[k].states|;
    assert Kept(chain[k].states, chain[k].summFreq);
    RestPositive(chain[k].states, chain[k].summFreq, at);
    rest := chain[k].summFreq + 1 - ns - x.freq;
    forall i | 0 <= i < k
      ensures Appends(chain[i], x.symbol, x.freq, rest, ns, side.initEsc,
                      Append(chain[i], x.symbol, x.freq, rest, ns, side.initEsc))
    {
      AppendLearns(chain[i], x.symbol, x.freq, rest, ns, side.initEsc);
    }
    hide KeptChain;
    SpreadIs(chain, k, at, side, rest);
  }

  lemma SpreadIs(chain: seq<Context>, k: nat, at: nat, side: Side, rest: nat)
    requires k < |chain| && at < |chain[k].states| && (k + 1 < |chain| ==> chain[k + 1].states != [])
    requires rest + |chain[k].states| + chain[k].states[at].freq == chain[k].summFreq + 1
    ensures var r, x := Spread(chain, k, at, side), chain[k].states[at];
            && |r| == |chain| && (forall i :: k + 1 < i < |chain| ==> r[i] == chain[i]) && r[k] == chain[k]
            && (k + 1 < |chain| ==>
                  r[k + 1] == if x.freq < 31 then AfterSuffix(chain[k + 1], x.symbol) else chain[k + 1])
            && forall i :: 0 <= i < k ==>
                 r[i] == if side.orderFall == 0 then chain[i]
                         else Append(chain[i], x.symbol, x.freq, rest, |chain[k].states|, side.initEsc)
  {
    hide Append;
    hide AfterSuffix;
  }

  /** `times` is `part` over `whole`, to the nearest, and down from one half. */
  ghost predicate Nearest(part: int, whole: int, times: int) {
    (2 * times - 1) * whole < 2 * part <= (2 * times + 1) * whole
  }

  /**
    The frequency of the one state of a new context: 1 when the symbol has no more than a fifth of what the others have
    in the suffix, and otherwise 2 and the ratio of the two. A single state hands its frequency down.
   */
  lemma UpFreqLearns(c: Context, symbol: Byte) returns (part: nat, rest: nat)
    requires KeptContext(c) && c.states != [] && symbol as int in Symbols(c.states)
    ensures |c.states| == 1 ==> UpFreq(c, symbol) == c.states[0].freq
    ensures 1 < |c.states| ==>
              && part + 1 == FreqOf(c.states, symbol) && 0 < rest && rest + |c.states| + part == c.summFreq
              && if 5 * part <= rest then UpFreq(c, symbol) == 1 else Nearest(part, rest, UpFreq(c, symbol) - 2)
  {
    part, rest := 0, 0;
    if 1 < |c.states| {
      var i := PlaceOf(c.states, symbol);
      FreqAt(c.states, i);
      RestPositive(c.states, c.summFreq, i);
      part := c.states[i].freq - 1;
      rest := c.summFreq - |c.states| - part;
      if rest < 2 * part {
        RoundedShare(part, rest);
      }
    }
  }

  lemma RoundedShare(part: nat, rest: nat)
    requires 0 < rest < 2 * part
    ensures Nearest(part, rest, Quotient(2 * part + 3 * rest - 1, 2 * rest) - 1)
  {
    var n := 2 * part + 3 * rest - 1;
    var q := Quotient(n, 2 * rest);
    assert n == q * (2 * rest) + n % (2 * rest);
    assert q * (2 * rest) == (2 * (q - 1) - 1) * rest + 3 * rest;
    assert (2 * (q - 1) + 1) * rest == (2 * (q - 1) - 1) * rest + 2 * rest;
  }

  // ---------- what the next question looks at ----------

  /** Escapes on the way change the order and the estimators and nothing else. */
  ghost predicate Escaping(side: Side, r: Result) {
    match r
    case Found(_, _, _, s) => Unnoticed(side, s)
    case EndMarker(s) => Unnoticed(side, s)
    case Corrupt(_) => false
  }

  ghost predicate Unnoticed(side: Side, s: Side) {
    s == side.(see := s.see, orderFall := s.orderFall)
  }

  lemma {:induction false} MaskedEscaping(chain: seq<Context>, level: nat, side: Side, symbol: int)
    requires level < |chain| && UsableChain(chain) && UsableSide(side)
    ensures Escaping(side, EncodeMasked(chain, level, side, symbol).1)
    decreases |chain| - level
  {
    hide Symbols;
    hide SumFreq;
    hide IndexOf;
    hide Left;
    hide EscFreq;
    match NextStop(chain, level, side)
    case End(up) =>
    case At(next, left, total, e, asked) =>
      StopUnnoticed(chain, level, side);
      hide NextStop;
      assert Unnoticed(side, asked) && Unnoticed(asked, HitSee(asked, e)) && Unnoticed(asked, MissSee(asked, e, total));
      if IndexOf(left, symbol) == |left| {
        MaskedEscaping(chain, next, MissSee(asked, e, total), symbol);
      }
  }

  lemma StopUnnoticed(chain: seq<Context>, level: nat, side: Side)
    requires level < |chain| && UsableChain(chain) && UsableSide(side)
    ensures match NextStop(chain, level, side)
            case End(up) => Unnoticed(side, up)
            case At(_, _, _, _, asked) => Unnoticed(side, asked)
  {
    hide Symbols;
    hide SumFreq;
    hide Left;
    hide EscFreq;
    hide SeeShare;
  }

  lemma {:induction false} MaskedEscapes(chain: seq<Context>, level: nat, side: Side, symbol: int)
    requires level < |chain| && UsableChain(chain) && UsableSide(side)
    ensures EncodeMasked(chain, level, side, symbol).1.Found? ==> EncodeMasked(chain, level, side, symbol).1.how == Escaped
    decreases |chain| - level
  {
    hide NextStop;
    match NextStop(chain, level, side)
    case End(_) =>
    case At(next, left, total, e, asked) =>
      if IndexOf(left, symbol) == |left| {
        MaskedEscapes(chain, next, MissSee(asked, e, total), symbol);
      }
  }

  /**
    After a symbol: whether it was a likely one, coded in its first context as the only state or with more than half of
    the total; the length of the run of such symbols, started again by an escape; and whether the symbol before it was
    over 0x3F, when that was looked at.
   */
  ghost predicate Remembers(first: Context, side: Side, symbol: int, escaped: bool, initRL: int, now: Side) {
    && first.states != []
    && (now.prevSuccess == 1 <==>
          && first.states[0].symbol == symbol
          && (|first.states| == 1 || first.summFreq < 2 * first.states[0].freq))
    && now.prevSuccess < 2
    && now.runLength == (if escaped then initRL else side.runLength + now.prevSuccess)
    && now.hiBitsFlag == (if 1 < |first.states| && !escaped then side.hiBitsFlag
                          else if side.foundSymbol < 0x40 then 0 else 8)
    && now.foundSymbol == side.foundSymbol
  }

  lemma Remembered(chain: seq<Context>, side: Side, symbol: int, initRL: int)
    requires UsableChain(chain) && UsableSide(side) && Encode(chain, side, symbol).1.Found?
    ensures var r := Encode(chain, side, symbol).1;
            && r.level < |chain|
            && Remembers(chain[0], side, symbol, r.how == Escaped, initRL,
                         Noted(r.side, r.how, chain[r.level], initRL))
  {
    hide Remembers;
    hide Noted;
    hide EncodeMasked;
    EncodeSensible(chain, side, symbol);
    assert Usable(chain[0]);
    if |chain[0].states| == 1 {
      BinaryRemembered(chain, side, symbol, initRL);
    } else {
      FirstRemembered(chain, side, symbol, initRL);
    }
  }

  lemma BinaryRemembered(chain: seq<Context>, side: Side, symbol: int, initRL: int)
    requires UsableChain(chain) && UsableSide(side) && |chain[0].states| == 1
    requires EncodeBinary(chain, side, symbol).1.Found? && EncodeBinary(chain, side, symbol).1.level < |chain|
    ensures var r := EncodeBinary(chain, side, symbol).1;
            Remembers(chain[0], side, symbol, r.how == Escaped, initRL, Noted(r.side, r.how, chain[r.level], initRL))
  {
    hide EncodeMasked;
    hide BinIndex;
    BinIndexBound(chain, side);
    var missed := MissBinary(LookBinary(side), BinIndex(chain, side));
    MissEsc(side, BinIndex(chain, side));
    MaskedEscapes(chain, 0, missed, symbol);
    MaskedEscaping(chain, 0, missed, symbol);
  }

  lemma FirstRemembered(chain: seq<Context>, side: Side, symbol: int, initRL: int)
    requires UsableChain(chain) && UsableSide(side) && |chain[0].states| != 1
    requires EncodeFirst(chain, side, symbol).1.Found? && EncodeFirst(chain, side, symbol).1.level < |chain|
    ensures var r := EncodeFirst(chain, side, symbol).1;
            Remembers(chain[0], side, symbol, r.how == Escaped, initRL, Noted(r.side, r.how, chain[r.level], initRL))
  {
    hide EncodeMasked;
    assert Usable(chain[0]);
    var i := IndexOf(chain[0].states, symbol);
    assert i == 0 <==> chain[0].states[0].symbol == symbol;
    hide IndexOf;
    MaskedEscapes(chain, 0, EscapeFirst(side), symbol);
    MaskedEscaping(chain, 0, EscapeFirst(side), symbol);
  }
}
