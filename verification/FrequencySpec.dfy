/** What rescaling and appending do to the frequencies of a context, and what they keep. */
module FrequencySpec {
  import opened Words
  import opened PpmdContext

  /** The escape share never exceeds this, so totals stay far from 16 bits. */
  function Slack(n: nat): nat {
    5 * n + 1515
  }

  /** A context with several states, between two updates. */
  ghost predicate Kept(s: seq<State>, summ: nat) {
    2 <= |s| <= 256 && Distinct(s) && FreqsIn(s, 1, MAX_FREQ) && SumFreq(s) < summ <= SumFreq(s) + Slack(|s|)
  }

  /** The same while one state, just bumped, may be over the limit. */
  ghost predicate Bumped(s: seq<State>, summ: nat, found: nat) {
    && 2 <= |s| <= 256 && found < |s| && Distinct(s)
    && (forall i :: 0 <= i < |s| ==> 1 <= s[i].freq <= if i == found then MAX_FREQ + 4 else MAX_FREQ)
    && SumFreq(s) < summ <= SumFreq(s) + Slack(|s|)
  }

  /** Totals of a kept context are under 2^16, and its Context is usable by the coder. */
  lemma KeptIsUsable(s: seq<State>, summ: nat)
    requires Kept(s, summ)
    ensures summ < 35000 && Usable(Context(s, summ))
  {
    SumFreqBound(s, MAX_FREQ);
    assert MAX_FREQ * |s| <= MAX_FREQ * 256;
  }

  lemma BumpedTotal(s: seq<State>, summ: nat, found: nat)
    requires Bumped(s, summ, found)
    ensures summ < 36000
  {
    SumFreqBound(s, MAX_FREQ + 4);
    assert (MAX_FREQ + 4) * |s| <= (MAX_FREQ + 4) * 256;
  }

  // ---------- rescaling ----------

  function ToFront(s: seq<State>, i: nat): (r: seq<State>)
    requires i < |s|
    ensures |r| == |s|
  {
    [s[i]] + s[..i] + s[i + 1..]
  }

  function Halved(x: State, extra: nat): State {
    x.(freq := (x.freq + extra) / 2)
  }

  /** Every frequency halved, rounded by `adder`; the first state gets four more beforehand. */
  function Scaled(s: seq<State>, adder: nat): (r: seq<State>)
    ensures |r| == |s|
    ensures forall i :: 0 <= i < |s| ==> r[i] == Halved(s[i], if i == 0 then 4 + adder else adder)
  {
    seq(|s|, i requires 0 <= i < |s| => Halved(s[i], if i == 0 then 4 + adder else adder))
  }

  /** After every state with at least its frequency, from the end. */
  function InsertDesc(s: seq<State>, x: State): (r: seq<State>)
    ensures |r| == |s| + 1
  {
    if s == [] || x.freq <= s[|s| - 1].freq then s + [x]
    else InsertDesc(s[..|s| - 1], x) + [s[|s| - 1]]
  }

  function SortDesc(s: seq<State>): (r: seq<State>)
    ensures |r| == |s|
  {
    if s == [] then [] else InsertDesc(SortDesc(s[..|s| - 1]), s[|s| - 1])
  }

  /** The list without its trailing zero frequencies. */
  function Trim(s: seq<State>): (r: seq<State>)
    ensures |r| <= |s| && r == s[..|r|]
    ensures r != [] ==> 0 < r[|r| - 1].freq
    ensures forall i :: |r| <= i < |s| ==> s[i].freq == 0
  {
    if s == [] || 0 < s[|s| - 1].freq then s else Trim(s[..|s| - 1])
  }

  ghost predicate Descending(s: seq<State>) {
    forall i, j :: 0 <= i < j < |s| ==> s[j].freq <= s[i].freq
  }

  lemma {:induction false} InsertDescPermutes(s: seq<State>, x: State)
    ensures multiset(InsertDesc(s, x)) == multiset(s) + multiset{x}
  {
    if s == [] || x.freq <= s[|s| - 1].freq {
    } else {
      var front, last := s[..|s| - 1], s[|s| - 1];
      InsertDescPermutes(front, x);
      assert s == front + [last];
    }
  }

  lemma DescendingSnoc(s: seq<State>, x: State)
    requires Descending(s) && forall i :: 0 <= i < |s| ==> x.freq <= s[i].freq
    ensures Descending(s + [x])
  {
  }

  lemma {:induction false} InsertDescSorted(s: seq<State>, x: State)
    requires Descending(s)
    ensures Descending(InsertDesc(s, x)) && multiset(InsertDesc(s, x)) == multiset(s) + multiset{x}
  {
    InsertDescPermutes(s, x);
    if s == [] || x.freq <= s[|s| - 1].freq {
      DescendingSnoc(s, x);
    } else {
      var front, last := s[..|s| - 1], s[|s| - 1];
      InsertDescSorted(front, x);
      var r := InsertDesc(front, x);
      forall i | 0 <= i < |r| ensures last.freq <= r[i].freq {
        Among(r, front, x, i);
      }
      DescendingSnoc(r, last);
    }
  }

  lemma Among(r: seq<State>, s: seq<State>, x: State, i: nat)
    requires i < |r| && multiset(r) == multiset(s) + multiset{x}
    ensures r[i] in s || r[i] == x
  {
    assert r[i] in multiset(r);
  }

  lemma {:induction false} InsertDescSum(s: seq<State>, x: State)
    ensures SumFreq(InsertDesc(s, x)) == SumFreq(s) + x.freq
  {
    if s == [] || x.freq <= s[|s| - 1].freq {
      SumFreqSnoc(s, x);
    } else {
      InsertDescSum(s[..|s| - 1], x);
      SumFreqSnoc(InsertDesc(s[..|s| - 1], x), s[|s| - 1]);
    }
  }

  lemma {:induction false} SortDescSorted(s: seq<State>)
    ensures Descending(SortDesc(s)) && multiset(SortDesc(s)) == multiset(s)
  {
    if s == [] {
    } else {
      var front, last := s[..|s| - 1], s[|s| - 1];
      SortDescSorted(front);
      InsertDescSorted(SortDesc(front), last);
      assert s == front + [last];
    }
  }

  lemma {:induction false} SortDescSum(s: seq<State>)
    ensures SumFreq(SortDesc(s)) == SumFreq(s)
  {
    if s == [] {
    } else {
      SortDescSum(s[..|s| - 1]);
      InsertDescSum(SortDesc(s[..|s| - 1]), s[|s| - 1]);
    }
  }

  /** A first element above all others stays first. */
  lemma {:induction false} SortDescFirst(s: seq<State>)
    requires 1 <= |s| && forall i :: 1 <= i < |s| ==> s[i].freq <= s[0].freq
    ensures SortDesc(s)[0] == s[0]
  {
    if |s| == 1 {
      assert SortDesc(s[..0]) == [];
    } else {
      var front, last := s[..|s| - 1], s[|s| - 1];
      SortDescFirst(front);
      InsertKeepsFirst(SortDesc(front), last);
    }
  }

  lemma {:induction false} InsertKeepsFirst(s: seq<State>, x: State)
    requires s != [] && x.freq <= s[0].freq
    ensures InsertDesc(s, x)[0] == s[0]
  {
    if x.freq > s[|s| - 1].freq {
      InsertKeepsFirst(s[..|s| - 1], x);
    }
  }

  /** Sorting the scaled list of a bumped context: everything in it is one of the halved states. */
  function Sorted(s: seq<State>, found: nat, adder: nat): seq<State>
    requires found < |s|
  {
    SortDesc(Scaled(ToFront(s, found), adder))
  }

  /** A list and a permutation of it have the same symbols, each once. */
  lemma PermutedDistinct(a: seq<State>, b: seq<State>)
    requires multiset(a) == multiset(b) && Distinct(a)
    ensures Distinct(b) && Symbols(a) == Symbols(b) && |a| == |b|
  {
    PermutedSymbols(a, b);
    PermutedSymbols(b, a);
    assert |a| == |multiset(a)| == |multiset(b)| == |b|;
    CountSymbols(a);
    assert Symbols(a) == Symbols(b);
    AllDistinct(b);
  }

  lemma PermutedSymbols(a: seq<State>, b: seq<State>)
    requires multiset(a) == multiset(b)
    ensures Symbols(a) <= Symbols(b)
  {
    forall x | x in Symbols(a) ensures x in Symbols(b) {
      var i :| 0 <= i < |a| && a[i].symbol == x;
      assert a[i] in multiset(b);
      assert a[i] in b;
    }
  }

  /** As many symbols as states: no symbol twice. */
  lemma {:induction false} AllDistinct(s: seq<State>)
    requires |Symbols(s)| == |s|
    ensures Distinct(s)
  {
    if s == [] {
    } else {
      var front, last := s[..|s| - 1], s[|s| - 1];
      assert s == front + [last];
      SymbolsSnoc(front, last);
      AtMostSymbols(front);
      AllDistinct(front);
      assert last.symbol as int in Symbols(front) ==> Symbols(s) == Symbols(front);
    }
  }

  lemma {:induction false} AtMostSymbols(s: seq<State>)
    ensures |Symbols(s)| <= |s|
  {
    if s == [] {
    } else {
      AtMostSymbols(s[..|s| - 1]);
      SymbolsSnoc(s[..|s| - 1], s[|s| - 1]);
      assert s == s[..|s| - 1] + [s[|s| - 1]];
    }
  }

  lemma ToFrontPermutes(s: seq<State>, i: nat)
    requires i < |s|
    ensures multiset(ToFront(s, i)) == multiset(s)
  {
    assert s == s[..i] + [s[i]] + s[i + 1..];
  }

  lemma ToFrontSum(s: seq<State>, i: nat)
    requires i < |s|
    ensures SumFreq(ToFront(s, i)) == SumFreq(s)
  {
    SumFreqSplit(s, i);
    SumFreqAppend([s[i]] + s[..i], s[i + 1..]);
    SumFreqAppend([s[i]], s[..i]);
  }

  lemma SumFreqSplit(s: seq<State>, i: nat)
    requires i < |s|
    ensures SumFreq(s) == SumFreq(s[..i]) + SumFreq([s[i]]) + SumFreq(s[i + 1..])
  {
    SumFreqCut(s, i);
    SumFreqCut(s[i..], 1);
    assert s[i..][..1] == [s[i]] && s[i..][1..] == s[i + 1..];
  }

  lemma SumFreqCut(s: seq<State>, i: nat)
    requires i <= |s|
    ensures SumFreq(s) == SumFreq(s[..i]) + SumFreq(s[i..])
  {
    SumFreqAppend(s[..i], s[i..]);
    assert s[..i] + s[i..] == s;
  }

  lemma ScaledDistinct(s: seq<State>, adder: nat)
    requires Distinct(s)
    ensures Distinct(Scaled(s, adder)) && Symbols(Scaled(s, adder)) == Symbols(s)
  {
    var r := Scaled(s, adder);
    assert forall i :: 0 <= i < |s| ==> r[i].symbol == s[i].symbol;
  }

  /** The facts about the sorted list that the rest of Rescale relies on. */
  lemma SortedFacts(s: seq<State>, summ: nat, found: nat, adder: nat)
    requires Bumped(s, summ, found) && MAX_FREQ < s[found].freq && adder < 2
    ensures var r := Sorted(s, found, adder);
            && |r| == |s| && Distinct(r) && Descending(r) && Symbols(r) == Symbols(s)
            && multiset(r) == multiset(Scaled(ToFront(s, found), adder))
            && r[0] == Halved(s[found], 4 + adder) && 64 <= r[0].freq <= 66
            && (forall i :: 1 <= i < |r| ==> adder <= r[i].freq <= 62)
  {
    var front := ToFront(s, found);
    ToFrontPermutes(s, found);
    PermutedDistinct(s, front);
    ScaledDistinct(front, adder);
    var scaled := Scaled(front, adder);
    forall i | 1 <= i < |front| ensures 1 <= front[i].freq <= MAX_FREQ {
      assert front[i] == if i <= found then s[i - 1] else s[i];
    }
    SortDescSorted(scaled);
    SortDescFirst(scaled);
    PermutedDistinct(scaled, SortDesc(scaled));
    var r := SortDesc(scaled);
    forall i | 1 <= i < |r| ensures adder <= r[i].freq <= 62 {
      assert r[i] in multiset(scaled);
      assert r[i] in scaled;
      var k :| 0 <= k < |scaled| && scaled[k] == r[i];
      assert r[i].symbol != r[0].symbol;
      assert k != 0;
    }
  }

  /** What a total leaves for the escape. */
  function Escape(s: seq<State>, summ: nat): nat {
    if SumFreq(s) <= summ then summ - SumFreq(s) else 0
  }

  function HalfUp(n: nat): nat {
    n - n / 2
  }

  /** The frequency of the only state left, halved once more for every bit of the escape share. */
  function CollapseFreq(freq: nat, esc: nat): (r: nat)
    ensures r <= freq && (0 < freq ==> 0 < r)
    decreases esc
  {
    var f, e := HalfUp(freq), esc / 2;
    if 1 < e then CollapseFreq(f, e) else f
  }

  /** Rescale: sort the halved states, drop the zeros, and share the total out again; or keep a single state. */
  datatype Rescaled = Many(states: seq<State>, summ: nat) | Single(one: State)

  function Rescale(s: seq<State>, summ: nat, found: nat, adder: nat): Rescaled
    requires found < |s|
  {
    ShareOut(Sorted(s, found, adder), Escape(s, summ))
  }

  /** Every state dropped adds one to the escape share, which is then halved. */
  function ShareOut(sorted: seq<State>, esc: nat): Rescaled {
    var kept := Trim(sorted);
    var grown := esc + |sorted| - |kept|;
    if |kept| == 1 && 1 < |sorted| then Single(kept[0].(freq := CollapseFreq(kept[0].freq, grown)))
    else Many(kept, SumFreq(kept) + HalfUp(grown))
  }

  /** Trimming zeros drops no frequency and keeps the order. */
  lemma {:induction false} TrimSum(s: seq<State>)
    ensures SumFreq(Trim(s)) == SumFreq(s)
  {
    if s == [] || 0 < s[|s| - 1].freq {
    } else {
      TrimSum(s[..|s| - 1]);
    }
  }

  /**
    Rescaling keeps a context fit for use: the found state comes first, frequencies descend and are at most 66, exactly
    the states halved to zero are gone, and the escape share stays positive and bounded. With OrderFall nonzero nothing
    is dropped at all.
   */
  lemma RescaleKeeps(s: seq<State>, summ: nat, found: nat, adder: nat)
    requires Bumped(s, summ, found) && MAX_FREQ < s[found].freq && adder < 2
    ensures match Rescale(s, summ, found, adder)
            case Many(t, summ') =>
              && Kept(t, summ') && summ' < 0x1_0000
              && Descending(t) && t[0].symbol == s[found].symbol && FreqsIn(t, 1, 66)
              && Symbols(t) <= Symbols(s) && (adder == 1 ==> Symbols(t) == Symbols(s))
              && (forall x :: x in t <==> x in Scaled(ToFront(s, found), adder) && 0 < x.freq)
            case Single(one) =>
              adder == 0 && one.symbol == s[found].symbol && 1 <= one.freq <= 66
              && forall i :: 0 <= i < |s| && i != found ==> s[i].freq == 1
  {
    SortedFacts(s, summ, found, adder);
    TrimFacts(s, found, adder);
    var t := Trim(Sorted(s, found, adder));
    if |t| == 1 {
      OnlyOneLeft(s, found, adder);
    } else {
      EscapeBound(s, summ, |t|);
      SharedOut(t, HalfUp(Escape(s, summ) + |s| - |t|));
    }
  }

  lemma SharedOut(t: seq<State>, share: nat)
    requires 2 <= |t| <= 256 && Distinct(t) && FreqsIn(t, 1, 66) && 0 < share <= Slack(|t|)
    ensures Kept(t, SumFreq(t) + share) && SumFreq(t) + share < 0x1_0000
  {
    SumFreqBound(t, 66);
    assert 66 * |t| <= 66 * 256;
  }

  lemma EscapeBound(s: seq<State>, summ: nat, n: nat)
    requires 2 <= n <= |s| <= 256 && SumFreq(s) < summ <= SumFreq(s) + Slack(|s|)
    ensures 0 < HalfUp(Escape(s, summ) + |s| - n) <= Slack(n)
  {
  }

  /** What trimming leaves of a sorted list whose first element is positive. */
  lemma TrimFacts(s: seq<State>, found: nat, adder: nat)
    requires found < |s|
    requires var r := Sorted(s, found, adder);
             && |r| == |s| && Distinct(r) && Descending(r) && Symbols(r) == Symbols(s)
             && multiset(r) == multiset(Scaled(ToFront(s, found), adder))
             && 64 <= r[0].freq <= 66 && (forall i :: 1 <= i < |r| ==> adder <= r[i].freq <= 62)
    ensures var r := Sorted(s, found, adder);
            var t := Trim(r);
            && t != [] && t[0] == r[0] && Distinct(t) && Descending(t) && FreqsIn(t, 1, 66)
            && Symbols(t) <= Symbols(s) && (0 < adder ==> t == r)
            && forall x :: x in t <==> x in Scaled(ToFront(s, found), adder) && 0 < x.freq
  {
    var r := Sorted(s, found, adder);
    TrimShape(r, adder);
    TrimKeepsExactly(r, Scaled(ToFront(s, found), adder));
  }

  lemma TrimPositive(r: seq<State>)
    requires Descending(r)
    ensures forall i :: 0 <= i < |Trim(r)| ==> 1 <= Trim(r)[i].freq
  {
    forall i | 0 <= i < |Trim(r)| ensures 1 <= Trim(r)[i].freq {
      TrimMembers(r, Trim(r)[i]);
    }
  }

  lemma TrimShape(r: seq<State>, adder: nat)
    requires r != [] && Distinct(r) && Descending(r)
    requires 64 <= r[0].freq <= 66 && (forall i :: 1 <= i < |r| ==> adder <= r[i].freq <= 62)
    ensures var t := Trim(r);
            && t != [] && t[0] == r[0] && Distinct(t) && Descending(t) && FreqsIn(t, 1, 66)
            && Symbols(t) <= Symbols(r) && (0 < adder ==> t == r)
  {
    TrimMembers(r, r[0]);
    PrefixSymbols(r, |Trim(r)|);
    hide Trim;
    hide Symbols;
    TrimPositive(r);
    var t := Trim(r);
    assert t[0] == r[0] && forall i :: 0 <= i < |t| ==> t[i] == r[i];
  }

  lemma TrimKeepsExactly(r: seq<State>, scaled: seq<State>)
    requires Descending(r) && multiset(r) == multiset(scaled)
    ensures forall x :: x in Trim(r) <==> x in scaled && 0 < x.freq
  {
    forall x ensures x in Trim(r) <==> x in scaled && 0 < x.freq {
      TrimMembers(r, x);
      assert x in r <==> x in multiset(r);
      assert x in scaled <==> x in multiset(scaled);
    }
  }

  lemma TrimMembers(r: seq<State>, x: State)
    requires Descending(r)
    ensures x in Trim(r) <==> x in r && 0 < x.freq
  {
    var t := Trim(r);
    if x in r && 0 < x.freq {
      var i :| 0 <= i < |r| && r[i] == x;
      assert t[i] == x;
    }
    if x in t {
      var i :| 0 <= i < |t| && t[i] == x;
      assert r[i] == x && t[|t| - 1].freq <= t[i].freq;
    }
  }

  lemma PrefixSymbols(r: seq<State>, n: nat)
    requires n <= |r|
    ensures Symbols(r[..n]) <= Symbols(r)
  {
    forall x | x in Symbols(r[..n]) ensures x in Symbols(r) {
      var i :| 0 <= i < n && r[..n][i].symbol == x;
      assert r[i].symbol == x;
    }
  }

  /** A single state is left only when all others had frequency 1 and the rounding went down. */
  lemma OnlyOneLeft(s: seq<State>, found: nat, adder: nat)
    requires found < |s| && 2 <= |s| && adder < 2
    requires forall i :: 0 <= i < |s| && i != found ==> 1 <= s[i].freq
    requires var r := Sorted(s, found, adder);
             && |Trim(r)| == 1 && Descending(r) && Distinct(r) && Trim(r)[0] == r[0]
             && multiset(r) == multiset(Scaled(ToFront(s, found), adder)) && r[0].symbol == s[found].symbol
    requires Distinct(s)
    ensures adder == 0 && forall i :: 0 <= i < |s| && i != found ==> s[i].freq == 1
  {
    var r := Sorted(s, found, adder);
    var front := ToFront(s, found);
    var scaled := Scaled(front, adder);
    forall i | 0 <= i < |s| && i != found ensures s[i].freq == 1 && adder == 0 {
      var k := if i < found then i + 1 else i;
      assert front[k] == s[i];
      assert scaled[k] in multiset(r);
      var m :| 0 <= m < |r| && r[m] == scaled[k];
      assert m != 0;
      assert r[m].freq == 0;
    }
    var other := if found == 0 then 1 else 0;
    assert s[other].freq == 1;
  }

  // ---------- appending a symbol ----------

  /** The first frequency of a state that stops being alone. */
  function Promoted(x: State): State {
    x.(freq := if x.freq < MAX_FREQ / 4 - 1 then 2 * x.freq else MAX_FREQ - 4)
  }

  function Flag(b: bool): nat {
    if b then 1 else 0
  }

  /** The total before the new symbol's share: `ns` states at MinContext, `n` states here. */
  function WidenedSumm(n: nat, ns: nat, summ: nat): nat {
    summ + Flag(2 * n < ns) + 2 * Flag(4 * n <= ns && summ <= 8 * n)
  }

  /** The states and the total to append to; a single state is promoted first. */
  function Opened(c: Context, ns: nat, initEsc: nat): Context {
    if |c.states| == 1 then
      var x := Promoted(c.states[0]);
      Context([x], x.freq + initEsc + Flag(3 < ns))
    else Context(c.states, WidenedSumm(|c.states|, ns, c.summFreq))
  }

  /** The frequency given to the new state, and what it adds to the total. */
  function NewFreq(found: nat, s0: nat, summ: nat): (r: (nat, nat))
    ensures 1 <= r.0 <= 7 && r.0 <= r.1 <= r.0 + 2
  {
    var cf, sf := 2 * found * (summ + 6), s0 + summ;
    if cf < 6 * sf then (1 + Flag(cf > sf) + Flag(cf >= 4 * sf), 3)
    else
      var f := 4 + Flag(cf >= 9 * sf) + Flag(cf >= 12 * sf) + Flag(cf >= 15 * sf);
      (f, f)
  }

  function Append(c: Context, symbol: Byte, found: nat, s0: nat, ns: nat, initEsc: nat): Context {
    var o := Opened(c, ns, initEsc);
    var (f, grow) := NewFreq(found, s0, o.summFreq);
    Context(o.states + [State(symbol, f)], o.summFreq + grow)
  }

  /** A context between two updates, of one state or several. */
  ghost predicate KeptContext(c: Context) {
    if |c.states| == 1 then 1 <= c.states[0].freq <= 128 else Kept(c.states, c.summFreq)
  }

  /** Appending an absent symbol keeps a context fit for use, and totals under 16 bits. */
  lemma AppendKeeps(c: Context, symbol: Byte, found: nat, s0: nat, ns: nat, initEsc: nat)
    requires KeptContext(c) && |c.states| < 256 && symbol as int !in Symbols(c.states) && 0 < initEsc <= 25
    ensures var r := Append(c, symbol, found, s0, ns, initEsc);
            && KeptContext(r) && r.summFreq < 0x1_0000
            && Symbols(r.states) == Symbols(c.states) + {symbol as int}
  {
    var o := Opened(c, ns, initEsc);
    var (f, grow) := NewFreq(found, s0, o.summFreq);
    var r := o.states + [State(symbol, f)];
    SumFreqSnoc(o.states, State(symbol, f));
    SymbolsSnoc(o.states, State(symbol, f));
    if |c.states| == 1 {
      SumFreqSnoc([], o.states[0]);
      assert [] + [o.states[0]] == o.states;
      OneSymbol(o.states);
      OneSymbol(c.states);
    }
    forall i | 0 <= i < |o.states| ensures o.states[i].symbol != symbol {
      assert c.states[i].symbol == o.states[i].symbol;
    }
    KeptIsUsable(r, o.summFreq + grow);
  }

  lemma OneSymbol(s: seq<State>)
    requires |s| == 1
    ensures Symbols(s) == {s[0].symbol as int}
  {
  }

  // ---------- the update procedures ----------

  function Bump(s: seq<State>, i: nat, more: nat): (r: seq<State>)
    requires i < |s|
    ensures |r| == |s|
  {
    s[i := s[i].(freq := s[i].freq + more)]
  }

  function Swap(s: seq<State>, i: nat): (r: seq<State>)
    requires 0 < i < |s|
    ensures |r| == |s|
  {
    s[i := s[i - 1]][i - 1 := s[i]]
  }

  lemma BumpSum(s: seq<State>, i: nat, more: nat)
    requires i < |s|
    ensures SumFreq(Bump(s, i, more)) == SumFreq(s) + more
  {
    var t := Bump(s, i, more);
    SumFreqSplit(s, i);
    SumFreqSplit(t, i);
    assert t[..i] == s[..i] && t[i + 1..] == s[i + 1..];
    OneSum([s[i]]);
    OneSum([t[i]]);
  }

  lemma OneSum(s: seq<State>)
    requires |s| == 1
    ensures SumFreq(s) == s[0].freq
  {
    assert s[..0] == [];
  }

  lemma SwapSum(s: seq<State>, i: nat)
    requires 0 < i < |s|
    ensures SumFreq(Swap(s, i)) == SumFreq(s)
  {
    var t := Swap(s, i);
    SumFreqSplit(s, i);
    SumFreqSplit(t, i);
    SumFreqAt(s, i - 1);
    SumFreqAt(t, i - 1);
    assert t[..i - 1] == s[..i - 1] && t[i + 1..] == s[i + 1..];
    OneSum([s[i]]);
    OneSum([t[i]]);
  }

  lemma BumpSymbols(s: seq<State>, i: nat, more: nat)
    requires i < |s|
    ensures Symbols(Bump(s, i, more)) == Symbols(s)
  {
    var t := Bump(s, i, more);
    assert forall k :: 0 <= k < |s| ==> t[k].symbol == s[k].symbol;
  }

  lemma SwapSymbols(s: seq<State>, i: nat)
    requires 0 < i < |s|
    ensures Symbols(Swap(s, i)) == Symbols(s)
  {
    var t := Swap(s, i);
    var place := (k: int) => if k == i then i - 1 else if k == i - 1 then i else k;
    forall x | x in Symbols(s) ensures x in Symbols(t) {
      var k :| 0 <= k < |s| && s[k].symbol == x;
      assert t[place(k)].symbol == x;
    }
    forall x | x in Symbols(t) ensures x in Symbols(s) {
      var k :| 0 <= k < |t| && t[k].symbol == x;
      assert s[place(k)].symbol == x;
    }
  }

  /** Four more for a found state, and for the total. */
  lemma BumpedFour(s: seq<State>, summ: nat, found: nat)
    requires Kept(s, summ) && found < |s|
    ensures Bumped(Bump(s, found, 4), summ + 4, found)
  {
    BumpSum(s, found, 4);
  }

  /** Two more for a state of the suffix that is not close to the limit. */
  lemma BumpedTwo(s: seq<State>, summ: nat, i: nat)
    requires Kept(s, summ) && i < |s| && s[i].freq < MAX_FREQ - 9
    ensures Kept(Bump(s, i, 2), summ + 2)
  {
    BumpSum(s, i, 2);
  }

  lemma SwapKept(s: seq<State>, summ: nat, i: nat)
    requires Kept(s, summ) && 0 < i < |s|
    ensures Kept(Swap(s, i), summ)
  {
    SwapSum(s, i);
  }

  lemma SwapBumped(s: seq<State>, summ: nat, found: nat)
    requires Bumped(s, summ, found) && 0 < found
    ensures Bumped(Swap(s, found), summ, found - 1)
  {
    SwapSum(s, found);
  }

  /** Within the limit, a bumped context is a kept one. */
  lemma BumpedWithin(s: seq<State>, summ: nat, found: nat)
    requires Bumped(s, summ, found) && s[found].freq <= MAX_FREQ
    ensures Kept(s, summ)
  {
  }

  /** An absent byte leaves room for another state. */
  lemma AbsentMeansRoom(s: seq<State>, symbol: Byte)
    requires Distinct(s) && symbol as int !in Symbols(s)
    ensures |s| < 256
  {
    CountSymbols(s);
    var rest := UpTo(256) - {symbol as int};
    SubsetSize(Symbols(s), rest);
  }

  /** What UpdateModel reads off MinContext is positive: the others' frequencies, over one each, and the escape. */
  lemma RestPositive(s: seq<State>, summ: nat, found: nat)
    requires Kept(s, summ) && found < |s|
    ensures |s| + s[found].freq <= summ
  {
    SumFreqSplit(s, found);
    OneSum([s[found]]);
    SumAtLeast(s[..found]);
    SumAtLeast(s[found + 1..]);
  }

  lemma {:induction false} SumAtLeast(s: seq<State>)
    requires forall i :: 0 <= i < |s| ==> 1 <= s[i].freq
    ensures |s| <= SumFreq(s)
  {
    if s == [] {
    } else {
      SumAtLeast(s[..|s| - 1]);
    }
  }

  /** The context a rescaling leaves. */
  function ContextOf(r: Rescaled): Context {
    match r
    case Many(t, summ) => Context(t, summ)
    case Single(one) => Context([one], 0)
  }

  /** A bumped context is rescaled when its found state passed the limit; with it, where FoundState points. */
  function AfterBump(s: seq<State>, summ: nat, found: nat, adder: nat): (Context, nat)
    requires found < |s|
  {
    if s[found].freq > MAX_FREQ then (ContextOf(Rescale(s, summ, found, adder)), 0) else (Context(s, summ), found)
  }

  function Adder(orderFall: nat): nat {
    if orderFall != 0 then 1 else 0
  }

  function AfterFirst(c: Context, orderFall: nat): (Context, nat)
    requires c.states != []
  {
    AfterBump(Bump(c.states, 0, 4), c.summFreq + 4, 0, Adder(orderFall))
  }

  function AfterLater(c: Context, found: nat, orderFall: nat): (Context, nat)
    requires 0 < found < |c.states|
  {
    var s := Bump(c.states, found, 4);
    if s[found].freq > s[found - 1].freq then
      AfterBump(Swap(s, found), c.summFreq + 4, found - 1, Adder(orderFall))
    else (Context(s, c.summFreq + 4), found)
  }

  function AfterEscaped(c: Context, found: nat, orderFall: nat): (Context, nat)
    requires found < |c.states|
  {
    AfterBump(Bump(c.states, found, 4), c.summFreq + 4, found, Adder(orderFall))
  }

  /** What an update must keep: fitness, the symbol FoundState stands for, and, below full order, every symbol. */
  ghost predicate UpdateKeeps(c: Context, found: nat, orderFall: nat, r: (Context, nat))
    requires found < |c.states|
  {
    && KeptContext(r.0) && r.1 < |r.0.states| && r.0.states[r.1].symbol == c.states[found].symbol
    && Symbols(r.0.states) <= Symbols(c.states)
    && (orderFall != 0 ==> Symbols(r.0.states) == Symbols(c.states))
  }

  lemma AfterBumpKeeps(s: seq<State>, summ: nat, found: nat, orderFall: nat)
    requires Bumped(s, summ, found)
    ensures UpdateKeeps(Context(s, summ), found, orderFall, AfterBump(s, summ, found, Adder(orderFall)))
  {
    if s[found].freq > MAX_FREQ {
      RescaleKeeps(s, summ, found, Adder(orderFall));
      match Rescale(s, summ, found, Adder(orderFall))
      case Many(_, _) =>
      case Single(one) => OneSymbol([one]);
    } else {
      BumpedWithin(s, summ, found);
    }
  }

  /** The updates keep their context; a symbol is only ever lost at full order, where no context depends on it. */
  lemma FirstKeeps(c: Context, orderFall: nat)
    requires KeptContext(c) && |c.states| != 1 && c.states != []
    ensures UpdateKeeps(c, 0, orderFall, AfterFirst(c, orderFall))
  {
    EscapedKeeps(c, 0, orderFall);
  }

  lemma EscapedKeeps(c: Context, found: nat, orderFall: nat)
    requires KeptContext(c) && |c.states| != 1 && found < |c.states|
    ensures UpdateKeeps(c, found, orderFall, AfterEscaped(c, found, orderFall))
  {
    hide Rescale;
    hide Symbols;
    hide SumFreq;
    hide Distinct;
    hide UpdateKeeps;
    hide Adder;
    var s := Bump(c.states, found, 4);
    BumpedFour(c.states, c.summFreq, found);
    BumpSymbols(c.states, found, 4);
    BumpKeeps(c, found, orderFall, s, found, c.summFreq + 4, AfterEscaped(c, found, orderFall));
  }

  lemma LaterKeeps(c: Context, found: nat, orderFall: nat)
    requires KeptContext(c) && |c.states| != 1 && 0 < found < |c.states|
    ensures UpdateKeeps(c, found, orderFall, AfterLater(c, found, orderFall))
  {
    hide Rescale;
    hide Symbols;
    hide SumFreq;
    hide Distinct;
    hide UpdateKeeps;
    hide Adder;
    var s, summ := Bump(c.states, found, 4), c.summFreq + 4;
    BumpedFour(c.states, c.summFreq, found);
    BumpSymbols(c.states, found, 4);
    if s[found].freq > s[found - 1].freq {
      SwapBumped(s, summ, found);
      SwapSymbols(s, found);
      BumpKeeps(c, found, orderFall, Swap(s, found), found - 1, summ, AfterLater(c, found, orderFall));
    } else {
      BumpKeeps(c, found, orderFall, s, found, summ, AfterLater(c, found, orderFall));
    }
  }

  /** An update that only moved and bumped the found state before a possible rescaling keeps what it must. */
  lemma BumpKeeps(c: Context, found: nat, orderFall: nat, s: seq<State>, at: nat, summ: nat, r: (Context, nat))
    requires found < |c.states| && Bumped(s, summ, at) && r == AfterBump(s, summ, at, Adder(orderFall))
    requires Symbols(s) == Symbols(c.states) && s[at].symbol == c.states[found].symbol
    ensures UpdateKeeps(c, found, orderFall, r)
  {
    AfterBumpKeeps(s, summ, at, orderFall);
  }

  /** The place of a symbol, or 0 when it does not occur. */
  function PlaceOf(s: seq<State>, symbol: Byte): (r: nat)
    requires s != []
    ensures r < |s|
    ensures symbol as int in Symbols(s) ==> s[r].symbol == symbol
  {
    if s[|s| - 1].symbol == symbol || |s| == 1 then
      if |s| > 1 && symbol as int in Symbols(s[..|s| - 1]) then PlaceOf(s[..|s| - 1], symbol) else |s| - 1
    else
      SymbolsSnoc(s[..|s| - 1], s[|s| - 1]);
      assert s == s[..|s| - 1] + [s[|s| - 1]];
      PlaceOf(s[..|s| - 1], symbol)
  }

  lemma PlaceIs(s: seq<State>, symbol: Byte, i: nat)
    requires i < |s| && s[i].symbol == symbol && Distinct(s)
    ensures PlaceOf(s, symbol) == i
  {
    assert s[PlaceOf(s, symbol)].symbol == symbol;
  }

  /** The suffix context after the first part of UpdateModel. */
  function AfterSuffix(c: Context, symbol: Byte): Context
    requires c.states != []
  {
    if |c.states| == 1 then
      var x := c.states[0];
      Context([x.(freq := x.freq + Flag(x.freq < 32))], c.summFreq)
    else
      var i := PlaceOf(c.states, symbol);
      var up := i != 0 && c.states[i].freq >= c.states[i - 1].freq;
      var (s, j) := if up then (Swap(c.states, i), i - 1) else (c.states, i);
      if s[j].freq < MAX_FREQ - 9 then Context(Bump(s, j, 2), c.summFreq + 2) else Context(s, c.summFreq)
  }

  lemma SuffixKeeps(c: Context, symbol: Byte)
    requires KeptContext(c) && symbol as int in Symbols(c.states)
    ensures KeptContext(AfterSuffix(c, symbol)) && Symbols(AfterSuffix(c, symbol).states) == Symbols(c.states)
  {
    if |c.states| == 1 {
      OneSymbol(c.states);
      OneSymbol(AfterSuffix(c, symbol).states);
    } else {
      var i := PlaceOf(c.states, symbol);
      var up := i != 0 && c.states[i].freq >= c.states[i - 1].freq;
      if up {
        SwapKept(c.states, c.summFreq, i);
        SwapSymbols(c.states, i);
      }
      var (s, j) := if up then (Swap(c.states, i), i - 1) else (c.states, i);
      BumpSymbols(s, j, 2);
      if s[j].freq < MAX_FREQ - 9 {
        BumpedTwo(s, c.summFreq, j);
      }
    }
  }

  // ---------- a chain of contexts ----------

  /** Contexts fit for use whose symbols grow along the chain. */
  ghost predicate KeptChain(chain: seq<Context>) {
    && (forall i :: 0 <= i < |chain| ==> KeptContext(chain[i]) && 1 <= |chain[i].states|)
    && (forall i :: 0 < i < |chain| ==> Symbols(chain[i - 1].states) <= Symbols(chain[i].states))
  }

  /** The first `k` contexts get the symbol, as UpdateModel does between MaxContext and MinContext. */
  ghost predicate Appended(was: seq<Context>, now: seq<Context>, k: nat, symbol: Byte, found: nat, s0: nat, ns: nat,
                           initEsc: nat) {
    && |now| == |was| && k <= |was|
    && (forall i :: 0 <= i < k ==> now[i] == Append(was[i], symbol, found, s0, ns, initEsc))
    && (forall i :: k <= i < |was| ==> now[i] == was[i])
  }

  /** MinContext knows the symbol, so the suffix chain stays contained when the contexts before it learn it. */
  lemma AppendKeepsChain(was: seq<Context>, now: seq<Context>, k: nat, symbol: Byte, found: nat, s0: nat, ns: nat,
                         initEsc: nat)
    requires KeptChain(was) && Appended(was, now, k, symbol, found, s0, ns, initEsc) && 0 < initEsc <= 25
    requires k < |was| && symbol as int in Symbols(was[k].states)
    requires forall i :: 0 <= i < k ==> symbol as int !in Symbols(was[i].states)
    ensures KeptChain(now)
  {
    forall i | 0 <= i < k
      ensures KeptContext(now[i]) && Symbols(now[i].states) == Symbols(was[i].states) + {symbol as int}
    {
      KeptDistinct(was[i]);
      AbsentMeansRoom(was[i].states, symbol);
      AppendKeeps(was[i], symbol, found, s0, ns, initEsc);
    }
    forall i | 0 < i < |now| ensures Symbols(now[i - 1].states) <= Symbols(now[i].states) {
      assert Symbols(was[i - 1].states) <= Symbols(was[i].states);
    }
  }

  lemma KeptDistinct(c: Context)
    requires KeptContext(c)
    ensures Distinct(c.states)
  {
  }

  /** A kept chain with a full root is one the symbol coder can use. */
  lemma KeptChainUsable(chain: seq<Context>)
    requires KeptChain(chain) && chain != [] && |chain[|chain| - 1].states| == 256
    ensures UsableChain(chain)
  {
    forall i | 0 <= i < |chain| ensures Usable(chain[i]) {
      if |chain[i].states| != 1 {
        KeptIsUsable(chain[i].states, chain[i].summFreq);
      }
    }
  }
}
