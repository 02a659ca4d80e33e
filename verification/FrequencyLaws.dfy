/**
  What the updates do to the frequencies of a context, symbol by symbol: frequencies are looked up before and after, and
  the limit of 124 and the amounts are those of the original, whatever the way the update takes.
 */
module FrequencyLaws {
  import opened Words
  import opened PpmdContext
  import opened FrequencySpec

  /** The frequency of a symbol, 0 when it does not occur. */
  function FreqOf(s: seq<State>, x: Byte): nat {
    if s == [] then 0 else if s[|s| - 1].symbol == x then s[|s| - 1].freq else FreqOf(s[..|s| - 1], x)
  }

  /** One symbol stands before another. */
  ghost predicate Before(s: seq<State>, x: Byte, y: Byte) {
    exists i, j :: 0 <= i < j < |s| && s[i].symbol == x && s[j].symbol == y
  }

  // ---------- looking frequencies up ----------

  lemma {:induction false} FreqAt(s: seq<State>, i: nat)
    requires i < |s| && Distinct(s)
    ensures FreqOf(s, s[i].symbol) == s[i].freq
  {
    if i < |s| - 1 {
      FreqAt(s[..|s| - 1], i);
    }
  }

  lemma {:induction false} FreqAbsent(s: seq<State>, x: Byte)
    requires x as int !in Symbols(s)
    ensures FreqOf(s, x) == 0
  {
    if s == [] {
    } else {
      assert s == s[..|s| - 1] + [s[|s| - 1]];
      SymbolsSnoc(s[..|s| - 1], s[|s| - 1]);
      FreqAbsent(s[..|s| - 1], x);
    }
  }

  lemma FreqPermuted(a: seq<State>, b: seq<State>, x: Byte)
    requires multiset(a) == multiset(b) && Distinct(a)
    ensures FreqOf(a, x) == FreqOf(b, x)
  {
    PermutedDistinct(a, b);
    if x as int in Symbols(a) {
      var i :| 0 <= i < |a| && a[i].symbol == x;
      assert a[i] in multiset(b);
      var j :| 0 <= j < |b| && b[j] == a[i];
      FreqAt(a, i);
      FreqAt(b, j);
    } else {
      FreqAbsent(a, x);
      FreqAbsent(b, x);
    }
  }

  lemma FreqBump(s: seq<State>, i: nat, more: nat, x: Byte)
    requires i < |s| && Distinct(s)
    ensures FreqOf(Bump(s, i, more), x) == FreqOf(s, x) + if x == s[i].symbol then more else 0
  {
    var t := Bump(s, i, more);
    BumpSymbols(s, i, more);
    if x as int in Symbols(s) {
      var k :| 0 <= k < |s| && s[k].symbol == x;
      FreqAt(s, k);
      FreqAt(t, k);
    } else {
      FreqAbsent(s, x);
      FreqAbsent(t, x);
    }
  }

  lemma SwapPermutes(s: seq<State>, i: nat)
    requires 0 < i < |s|
    ensures multiset(Swap(s, i)) == multiset(s)
  {
    var front, back := s[..i - 1], s[i + 1..];
    TwoSwapped(front, s[i - 1], s[i], back);
    assert s == front + [s[i - 1]] + [s[i]] + back;
    assert Swap(s, i) == front + [s[i]] + [s[i - 1]] + back;
  }

  lemma TwoSwapped(front: seq<State>, x: State, y: State, back: seq<State>)
    ensures multiset(front + [x] + [y] + back) == multiset(front + [y] + [x] + back)
  {
  }

  lemma FreqScaled(s: seq<State>, adder: nat, x: Byte)
    requires s != [] && Distinct(s) && adder < 2
    ensures FreqOf(Scaled(s, adder), x) == (FreqOf(s, x) + (if x == s[0].symbol then 4 else 0) + adder) / 2
  {
    var t := Scaled(s, adder);
    ScaledDistinct(s, adder);
    if x as int in Symbols(s) {
      var k :| 0 <= k < |s| && s[k].symbol == x;
      FreqAt(s, k);
      FreqAt(t, k);
    } else {
      assert s[0].symbol as int in Symbols(s);
      FreqAbsent(s, x);
      FreqAbsent(t, x);
    }
  }

  lemma {:induction false} FreqTrim(s: seq<State>, x: Byte)
    requires Distinct(s)
    ensures FreqOf(Trim(s), x) == FreqOf(s, x)
  {
    if s == [] || 0 < s[|s| - 1].freq {
    } else {
      FreqTrim(s[..|s| - 1], x);
      if x == s[|s| - 1].symbol {
        FreqGone(s[..|s| - 1], x);
      }
    }
  }

  lemma FreqGone(s: seq<State>, x: Byte)
    requires forall i :: 0 <= i < |s| ==> s[i].symbol != x
    ensures FreqOf(s, x) == 0
  {
    FreqAbsent(s, x);
  }

  lemma FreqPositive(s: seq<State>, x: Byte)
    requires Distinct(s) && forall i :: 0 <= i < |s| ==> 1 <= s[i].freq
    ensures 0 < FreqOf(s, x) <==> x as int in Symbols(s)
  {
    if x as int in Symbols(s) {
      var k :| 0 <= k < |s| && s[k].symbol == x;
      FreqAt(s, k);
    } else {
      FreqAbsent(s, x);
    }
  }

  // ---------- up to the limit and past it ----------

  /** The found symbol gains four, and so does the total; all others stay. */
  ghost predicate Gained(c: Context, x: Byte, r: Context) {
    && r.summFreq == c.summFreq + 4
    && forall y: Byte :: FreqOf(r.states, y) == FreqOf(c.states, y) + if y == x then 4 else 0
  }

  function Half(n: nat): nat {
    n / 2
  }

  /** All frequencies are halved; those that become nothing are dropped, and each adds one to what the escape has. */
  ghost predicate HalvedAll(c: Context, x: Byte, up: nat, r: Context) {
    && (forall y: Byte :: FreqOf(r.states, y) == Half(FreqOf(c.states, y) + (if y == x then 8 else 0) + up))
    && (forall y: Byte :: y as int in Symbols(r.states) <==> 0 < FreqOf(r.states, y))
    && EscapeHalved(c.summFreq - SumFreq(c.states) + |c.states| - |r.states|, r.summFreq - SumFreq(r.states))
  }

  ghost predicate EscapeHalved(was: int, now: int) {
    was <= 2 * now <= was + 1
  }

  /** Nothing else is left: the frequency is halved, rounded up, while the escape has more than one left, at least once. */
  ghost predicate Alone(c: Context, x: Byte, r: Context) {
    && |r.states| == 1 && r.states[0].symbol == x
    && (forall y: Byte :: y != x ==> FreqOf(c.states, y) <= 1)
    && Collapsed(Half(FreqOf(c.states, x) + 8), c.summFreq - SumFreq(c.states) + |c.states| - 1, r.states[0].freq)
  }

  ghost predicate Collapsed(was: nat, esc: int, now: nat) {
    exists n: nat :: CollapsedBy(was, esc, now, n)
  }

  /** `n` is the least number of halvings, one or more, that leaves no more than one of `esc`. */
  ghost predicate CollapsedBy(was: nat, esc: int, now: nat, n: nat) {
    && 1 <= n && esc < 2 * Pow2(n) && (1 < n ==> Pow2(n) <= esc)
    && (now - 1) * Pow2(n) < was <= now * Pow2(n)
  }

  /** An update that found `x`. */
  ghost predicate Learned(c: Context, x: Byte, orderFall: nat, r: Context) {
    if FreqOf(c.states, x) + 4 <= 124 then Gained(c, x, r)
    else if 1 < |r.states| then HalvedAll(c, x, if orderFall == 0 then 0 else 1, r)
    else orderFall == 0 && Alone(c, x, r)
  }

  lemma {:induction false} CollapseHalves(was: nat, esc: nat) returns (n: nat)
    ensures CollapsedBy(was, esc, CollapseFreq(was, esc), n)
    decreases esc
  {
    if 1 < esc / 2 {
      var m := CollapseHalves(HalfUp(was), esc / 2);
      n := m + 1;
      HalvedOnce(was, esc, CollapseFreq(was, esc), m);
    } else {
      n := 1;
      assert Pow2(1) == 2;
    }
  }

  lemma HalvedOnce(was: nat, esc: nat, now: nat, n: nat)
    requires CollapsedBy(HalfUp(was), esc / 2, now, n) && 1 < esc / 2
    ensures CollapsedBy(was, esc, now, n + 1)
  {
    var p := Pow2(n);
    assert Pow2(n + 1) == 2 * p;
    assert now * (2 * p) == 2 * (now * p) && (now - 1) * (2 * p) == 2 * ((now - 1) * p);
    if n == 1 {
      assert p == 2 by {
        assert Pow2(0) == 1;
      }
    }
  }

  /** The sorted list of a rescaling has every frequency halved. */
  lemma FreqSorted(s: seq<State>, found: nat, adder: nat, x: Byte)
    requires found < |s| && Distinct(s) && adder < 2
    ensures Distinct(Sorted(s, found, adder))
    ensures FreqOf(Sorted(s, found, adder), x) == Half(FreqOf(s, x) + (if x == s[found].symbol then 4 else 0) + adder)
  {
    hide FreqOf;
    hide SortDesc;
    hide Symbols;
    var front := ToFront(s, found);
    ToFrontPermutes(s, found);
    PermutedDistinct(s, front);
    FreqPermuted(s, front, x);
    hide Distinct;
    var scaled := Scaled(front, adder);
    ScaledDistinct(front, adder);
    FreqScaled(front, adder, x);
    SortDescSorted(scaled);
    PermutedDistinct(scaled, SortDesc(scaled));
    FreqPermuted(scaled, SortDesc(scaled), x);
  }

  /** A context whose found state was given four, before the limit is looked at; `s` is its list of states in any order. */
  ghost predicate Given(c: Context, x: Byte, s: seq<State>, found: nat) {
    && Distinct(s) && found < |s| == |c.states| && s[found].symbol == x && SumFreq(s) == SumFreq(c.states) + 4
    && forall y: Byte :: FreqOf(s, y) == FreqOf(c.states, y) + if y == x then 4 else 0
  }

  /** Every frequency of what Rescale keeps. */
  lemma TrimmedFreqs(c: Context, x: Byte, s: seq<State>, found: nat, adder: nat)
    requires Given(c, x, s, found) && adder < 2
    ensures forall y: Byte ::
              FreqOf(Trim(Sorted(s, found, adder)), y) == Half(FreqOf(c.states, y) + (if y == x then 8 else 0) + adder)
  {
    hide Trim;
    hide Sorted;
    hide SumFreq;
    forall y: Byte
      ensures FreqOf(Trim(Sorted(s, found, adder)), y)
           == Half(FreqOf(c.states, y) + (if y == x then 8 else 0) + adder)
    {
      FreqSorted(s, found, adder, y);
      FreqTrim(Sorted(s, found, adder), y);
    }
  }

  lemma SharedMany(c: Context, x: Byte, s: seq<State>, found: nat, adder: nat)
    requires Given(c, x, s, found) && adder < 2 && SumFreq(s) <= c.summFreq + 4
    requires var t := Trim(Sorted(s, found, adder)); 1 < |t| && Distinct(t) && FreqsIn(t, 1, 66)
    ensures Rescale(s, c.summFreq + 4, found, adder).Many?
    ensures HalvedAll(c, x, adder, ContextOf(Rescale(s, c.summFreq + 4, found, adder)))
  {
    TrimmedFreqs(c, x, s, found, adder);
    var t := Trim(Sorted(s, found, adder));
    forall y: Byte ensures y as int in Symbols(t) <==> 0 < FreqOf(t, y) {
      FreqPositive(t, y);
    }
    SizeSorted(s, found, adder);
    hide Trim;
    hide Sorted;
    hide Symbols;
    hide FreqOf;
  }

  lemma SizeSorted(s: seq<State>, found: nat, adder: nat)
    requires found < |s|
    ensures |Sorted(s, found, adder)| == |s|
  {
  }

  lemma SharedOne(c: Context, x: Byte, s: seq<State>, found: nat)
    requires Given(c, x, s, found) && SumFreq(s) <= c.summFreq + 4 && 1 < |s|
    requires var t := Trim(Sorted(s, found, 0)); |t| == 1 && Distinct(t) && t[0].symbol == x
    requires forall i :: 0 <= i < |s| && i != found ==> s[i].freq == 1
    ensures Rescale(s, c.summFreq + 4, found, 0).Single?
    ensures Alone(c, x, ContextOf(Rescale(s, c.summFreq + 4, found, 0)))
  {
    hide Trim;
    hide Sorted;
    hide FreqOf;
    hide CollapseFreq;
    hide CollapsedBy;
    TrimmedFreqs(c, x, s, found, 0);
    var t := Trim(Sorted(s, found, 0));
    OthersOne(c, x, s, found);
    FreqAt(t, 0);
    SizeSorted(s, found, 0);
    hide Distinct;
    var n := CollapseHalves(t[0].freq, Escape(s, c.summFreq + 4) + |s| - 1);
  }

  lemma RescaleHalves(c: Context, x: Byte, s: seq<State>, found: nat, adder: nat)
    requires Given(c, x, s, found) && Bumped(s, c.summFreq + 4, found) && 124 < s[found].freq && adder < 2
    ensures var r := ContextOf(Rescale(s, c.summFreq + 4, found, adder));
            if 1 < |r.states| then HalvedAll(c, x, adder, r) else adder == 0 && Alone(c, x, r)
  {
    hide HalvedAll;
    hide Alone;
    hide FreqOf;
    RescaleKeeps(s, c.summFreq + 4, found, adder);
    RescaledIs(s, c.summFreq + 4, found, adder);
    if 1 < |Trim(Sorted(s, found, adder))| {
      SharedMany(c, x, s, found, adder);
    } else {
      SharedOne(c, x, s, found);
    }
  }

  lemma RescaledIs(s: seq<State>, summ: nat, found: nat, adder: nat)
    requires found < |s| && 1 < |s|
    ensures var t := Trim(Sorted(s, found, adder));
            match Rescale(s, summ, found, adder)
            case Many(u, _) => u == t && |t| != 1
            case Single(one) => |t| == 1 && t[0].symbol == one.symbol
  {
    hide Trim;
    hide Sorted;
    hide CollapseFreq;
    SizeSorted(s, found, adder);
  }

  lemma OthersOne(c: Context, x: Byte, s: seq<State>, found: nat)
    requires Given(c, x, s, found) && forall i :: 0 <= i < |s| && i != found ==> s[i].freq == 1
    ensures forall y: Byte :: y != x ==> FreqOf(c.states, y) <= 1
  {
    forall y: Byte | y != x ensures FreqOf(s, y) <= 1 {
      if y as int in Symbols(s) {
        var i :| 0 <= i < |s| && s[i].symbol == y;
        FreqAt(s, i);
      } else {
        FreqAbsent(s, y);
      }
    }
  }

  lemma BumpGives(c: Context, found: nat)
    requires Distinct(c.states) && found < |c.states|
    ensures Given(c, c.states[found].symbol, Bump(c.states, found, 4), found)
  {
    BumpSum(c.states, found, 4);
    forall y: Byte
      ensures FreqOf(Bump(c.states, found, 4), y)
           == FreqOf(c.states, y) + if y == c.states[found].symbol then 4 else 0
    {
      FreqBump(c.states, found, 4, y);
    }
  }

  lemma SwapGives(c: Context, x: Byte, s: seq<State>, found: nat)
    requires Given(c, x, s, found) && 0 < found
    ensures Given(c, x, Swap(s, found), found - 1)
  {
    var t := Swap(s, found);
    SwapPermutes(s, found);
    SwapSum(s, found);
    PermutedDistinct(s, t);
    forall y: Byte ensures FreqOf(t, y) == FreqOf(s, y) {
      FreqPermuted(s, t, y);
    }
  }

  /** With four given, what is left is what an update must leave. */
  lemma BumpLearns(c: Context, x: Byte, s: seq<State>, found: nat, orderFall: nat)
    requires Given(c, x, s, found) && Bumped(s, c.summFreq + 4, found)
    ensures Learned(c, x, orderFall, AfterBump(s, c.summFreq + 4, found, Adder(orderFall)).0)
  {
    hide Rescale;
    hide Distinct;
    hide HalvedAll;
    hide Alone;
    hide Bumped;
    assert FreqOf(s, x) == s[found].freq by {
      FreqAt(s, found);
    }
    if 124 < s[found].freq {
      RescaleHalves(c, x, s, found, Adder(orderFall));
    }
  }

  lemma FirstLearns(c: Context, orderFall: nat)
    requires KeptContext(c) && |c.states| != 1 && c.states != []
    ensures Learned(c, c.states[0].symbol, orderFall, AfterFirst(c, orderFall).0)
  {
    hide AfterBump;
    hide Learned;
    BumpGives(c, 0);
    BumpedFour(c.states, c.summFreq, 0);
    BumpLearns(c, c.states[0].symbol, Bump(c.states, 0, 4), 0, orderFall);
  }

  lemma EscapedLearns(c: Context, found: nat, orderFall: nat)
    requires KeptContext(c) && |c.states| != 1 && found < |c.states|
    ensures Learned(c, c.states[found].symbol, orderFall, AfterEscaped(c, found, orderFall).0)
  {
    hide AfterBump;
    hide Learned;
    BumpGives(c, found);
    BumpedFour(c.states, c.summFreq, found);
    BumpLearns(c, c.states[found].symbol, Bump(c.states, found, 4), found, orderFall);
  }

  lemma LaterLearns(c: Context, found: nat, orderFall: nat)
    requires KeptContext(c) && |c.states| != 1 && 0 < found < |c.states|
    ensures Learned(c, c.states[found].symbol, orderFall, AfterLater(c, found, orderFall).0)
  {
    hide AfterBump;
    hide Learned;
    hide Given;
    hide Bumped;
    var s, x := Bump(c.states, found, 4), c.states[found].symbol;
    BumpGives(c, found);
    BumpedFour(c.states, c.summFreq, found);
    if s[found].freq > s[found - 1].freq {
      SwapGives(c, x, s, found);
      SwapBumped(s, c.summFreq + 4, found);
      BumpLearns(c, x, Swap(s, found), found - 1, orderFall);
    } else {
      WithinLimit(s, c.summFreq + 4, found, orderFall);
      BumpLearns(c, x, s, found, orderFall);
    }
  }

  /** A state no larger than the one before it is not over the limit. */
  lemma WithinLimit(s: seq<State>, summ: nat, found: nat, orderFall: nat)
    requires Bumped(s, summ, found) && 0 < found && s[found].freq <= s[found - 1].freq
    ensures AfterBump(s, summ, found, Adder(orderFall)) == (Context(s, summ), found)
  {
  }

  // ---------- the order of the states ----------

  /** The same symbols at the same places. */
  ghost predicate SamePlaces(s: seq<State>, r: seq<State>) {
    |r| == |s| && forall i :: 0 <= i < |s| ==> r[i].symbol == s[i].symbol
  }

  /** The symbol at a place and the one before it have changed places. */
  ghost predicate Passed(s: seq<State>, r: seq<State>, at: nat) {
    && 0 < at < |s| == |r| && r[at].symbol == s[at - 1].symbol && r[at - 1].symbol == s[at].symbol
    && forall i :: 0 <= i < |s| && i != at && i != at - 1 ==> r[i].symbol == s[i].symbol
  }

  /** A symbol in front, the others by descending frequency, and by their old order where frequencies are the same. */
  ghost predicate Ranked(s: seq<State>, x: Byte, r: seq<State>) {
    && r != [] && r[0].symbol == x
    && (forall i, j :: 0 <= i < j < |r| ==> r[j].freq <= r[i].freq)
    && (forall i, j :: 0 < i < j < |r| && r[j].freq == r[i].freq ==> Before(s, r[i].symbol, r[j].symbol))
  }

  ghost predicate Stable(s: seq<State>, r: seq<State>) {
    forall i, j :: 0 <= i < j < |r| && r[j].freq == r[i].freq ==> Before(s, r[i].symbol, r[j].symbol)
  }

  /** Where the insertion puts a state. */
  lemma {:induction false} InsertAt(s: seq<State>, x: State) returns (k: nat)
    ensures k <= |s| && InsertDesc(s, x) == s[..k] + [x] + s[k..]
    ensures forall i :: k <= i < |s| ==> s[i].freq < x.freq
    ensures k == 0 || x.freq <= s[k - 1].freq
  {
    if s == [] || x.freq <= s[|s| - 1].freq {
      k := |s|;
      assert s[k..] == [];
    } else {
      var front, last := s[..|s| - 1], s[|s| - 1];
      k := InsertAt(front, x);
      assert front[..k] == s[..k] && front[k..] + [last] == s[k..];
      assert InsertDesc(s, x) == s[..k] + [x] + s[k..];
    }
  }

  lemma BeforeSnoc(s: seq<State>, last: State, x: Byte, y: Byte)
    requires Before(s, x, y) || (x as int in Symbols(s) && y == last.symbol)
    ensures Before(s + [last], x, y)
  {
    var t := s + [last];
    if Before(s, x, y) {
      var i, j :| 0 <= i < j < |s| && s[i].symbol == x && s[j].symbol == y;
      assert t[i].symbol == x && t[j].symbol == y;
    } else {
      var i :| 0 <= i < |s| && s[i].symbol == x;
      assert t[i].symbol == x && t[|s|].symbol == y;
    }
  }

  /** Equal frequencies keep their order in the sort. */
  lemma {:induction false} SortStable(s: seq<State>)
    ensures Stable(s, SortDesc(s))
  {
    if s == [] {
    } else {
      var front, last := s[..|s| - 1], s[|s| - 1];
      SortStable(front);
      SortedStep(s);
      SortedSymbols(front);
      hide Before;
      hide Stable;
      hide Symbols;
      hide SortDesc;
      hide InsertDesc;
      assert s == front + [last];
      InsertedStable(front, SortDesc(front), last);
    }
  }

  lemma SortedStep(s: seq<State>)
    requires s != []
    ensures SortDesc(s) == InsertDesc(SortDesc(s[..|s| - 1]), s[|s| - 1])
  {
  }

  lemma SortedSymbols(s: seq<State>)
    ensures Symbols(SortDesc(s)) <= Symbols(s)
  {
    SortDescSorted(s);
    PermutedSymbols(SortDesc(s), s);
  }

  lemma InsertedStable(front: seq<State>, t: seq<State>, last: State)
    requires Stable(front, t) && Symbols(t) <= Symbols(front)
    ensures Stable(front + [last], InsertDesc(t, last))
  {
    hide Stable;
    hide Symbols;
    var k := InsertAt(t, last);
    InsertStable(front, t, last, k);
  }

  lemma InsertStable(front: seq<State>, t: seq<State>, last: State, k: nat)
    requires Stable(front, t) && Symbols(t) <= Symbols(front) && k <= |t|
    requires forall i :: k <= i < |t| ==> t[i].freq < last.freq
    ensures Stable(front + [last], t[..k] + [last] + t[k..])
  {
    hide Symbols;
    hide Before;
    var r := t[..k] + [last] + t[k..];
    forall i, j | 0 <= i < j < |r| && r[j].freq == r[i].freq
      ensures Before(front + [last], r[i].symbol, r[j].symbol)
    {
      var a := if i < k then i else i - 1;
      if j == k {
        InSymbols(t, i);
      } else if i != k {
        var b := if j < k then j else j - 1;
        assert Before(front, t[a].symbol, t[b].symbol);
      }
      if i != k {
        assert r[i] == t[a];
        BeforeSnoc(front, last, r[i].symbol, r[j].symbol);
      }
    }
  }

  lemma InSymbols(s: seq<State>, i: nat)
    requires i < |s|
    ensures s[i].symbol as int in Symbols(s)
  {
  }

  /** Moving a state to the front and scaling leave the order of the others. */
  lemma BeforeScaled(s: seq<State>, found: nat, adder: nat, x: Byte, y: Byte)
    requires found < |s| && Before(Scaled(ToFront(s, found), adder), x, y) && x != s[found].symbol
    ensures Before(s, x, y)
  {
    var front := ToFront(s, found);
    var t := Scaled(front, adder);
    var i, j :| 0 <= i < j < |t| && t[i].symbol == x && t[j].symbol == y;
    assert t[0].symbol == s[found].symbol;
    var a, b := if i <= found then i - 1 else i, if j <= found then j - 1 else j;
    assert front[i] == s[a] && front[j] == s[b];
    assert t[i].symbol == front[i].symbol && t[j].symbol == front[j].symbol;
    assert s[a].symbol == x && s[b].symbol == y;
  }

  lemma PairRanked(s: seq<State>, found: nat, adder: nat, i: nat, j: nat)
    requires found < |s| && 0 < i < j < |s| && Distinct(Sorted(s, found, adder))
    requires var r := Sorted(s, found, adder); r[i].freq == r[j].freq && r[0].symbol == s[found].symbol
    ensures var r := Sorted(s, found, adder); Before(s, r[i].symbol, r[j].symbol)
  {
    hide Before;
    SortStable(Scaled(ToFront(s, found), adder));
    SortedIs(s, found, adder);
    hide SortDesc;
    hide Scaled;
    hide ToFront;
    hide Sorted;
    var r := Sorted(s, found, adder);
    BeforeScaled(s, found, adder, r[i].symbol, r[j].symbol);
  }

  lemma RescaleRanks(s: seq<State>, summ: nat, found: nat, adder: nat)
    requires Bumped(s, summ, found) && 124 < s[found].freq && adder < 2
    ensures Ranked(s, s[found].symbol, ContextOf(Rescale(s, summ, found, adder)).states)
  {
    hide Before;
    hide Symbols;
    hide Sorted;
    hide Trim;
    hide Scaled;
    RescaleKeeps(s, summ, found, adder);
    RescaledIs(s, summ, found, adder);
    SortedFacts(s, summ, found, adder);
    var r := ContextOf(Rescale(s, summ, found, adder)).states;
    var sorted := Sorted(s, found, adder);
    hide Distinct;
    if 1 < |r| {
      assert r == sorted[..|r|];
      forall i, j | 0 < i < j < |r| && r[j].freq == r[i].freq ensures Before(s, r[i].symbol, r[j].symbol) {
        PairRanked(s, found, adder, i, j);
      }
    }
  }

  lemma SortedIs(s: seq<State>, found: nat, adder: nat)
    requires found < |s|
    ensures Sorted(s, found, adder) == SortDesc(Scaled(ToFront(s, found), adder))
  {
  }

  /** The order of all symbols but one is that of another list. */
  ghost predicate OrderKept(s: seq<State>, t: seq<State>, x: Byte) {
    forall y: Byte, z: Byte :: y != x && z != x && Before(t, y, z) ==> Before(s, y, z)
  }

  lemma SameOrder(s: seq<State>, t: seq<State>, x: Byte)
    requires SamePlaces(s, t)
    ensures OrderKept(s, t, x)
  {
    forall y: Byte, z: Byte | Before(t, y, z) ensures Before(s, y, z) {
      var i, j :| 0 <= i < j < |t| && t[i].symbol == y && t[j].symbol == z;
      assert s[i].symbol == y && s[j].symbol == z;
    }
  }

  lemma PassedOrder(s: seq<State>, t: seq<State>, at: nat)
    requires Passed(s, t, at)
    ensures OrderKept(s, t, s[at].symbol)
  {
    forall y: Byte, z: Byte | y != s[at].symbol && z != s[at].symbol && Before(t, y, z) ensures Before(s, y, z) {
      var i, j :| 0 <= i < j < |t| && t[i].symbol == y && t[j].symbol == z;
      var a, b := if i == at then at - 1 else i, if j == at then at - 1 else j;
      assert s[a].symbol == y && s[b].symbol == z;
    }
  }

  lemma RankedKept(s: seq<State>, t: seq<State>, x: Byte, r: seq<State>)
    requires Ranked(t, x, r) && OrderKept(s, t, x) && Distinct(r)
    ensures Ranked(s, x, r)
  {
    hide Before;
  }

  /**
    Where an update leaves the states: past the limit the found one in front of the ranked others; otherwise it passes
    the one before it in Update1, when it has more now, and all stay where they are in the other updates.
   */
  ghost predicate Placed(c: Context, found: nat, passes: bool, r: (Context, nat))
    requires found < |c.states|
  {
    var f := c.states[found].freq;
    if 124 < f + 4 then Ranked(c.states, c.states[found].symbol, r.0.states) && r.1 == 0
    else if passes && 0 < found && c.states[found - 1].freq < f + 4 then
      Passed(c.states, r.0.states, found) && r.1 == found - 1
    else SamePlaces(c.states, r.0.states) && r.1 == found
  }

  lemma RescalePlaces(c: Context, s: seq<State>, found: nat, at: nat, orderFall: nat)
    requires found < |c.states| && Bumped(s, c.summFreq + 4, at) && s[at].freq == c.states[found].freq + 4
    requires s[at].symbol == c.states[found].symbol && 124 < s[at].freq
    requires OrderKept(c.states, s, s[at].symbol)
    ensures var r := AfterBump(s, c.summFreq + 4, at, Adder(orderFall));
            Ranked(c.states, c.states[found].symbol, r.0.states) && r.1 == 0
  {
    hide Before;
    hide Rescale;
    RescaleKeeps(s, c.summFreq + 4, at, Adder(orderFall));
    RescaleRanks(s, c.summFreq + 4, at, Adder(orderFall));
    RankedKept(c.states, s, s[at].symbol, ContextOf(Rescale(s, c.summFreq + 4, at, Adder(orderFall))).states);
  }

  lemma BumpPlaces(c: Context, found: nat, orderFall: nat)
    requires KeptContext(c) && |c.states| != 1 && found < |c.states|
    ensures Placed(c, found, false, AfterBump(Bump(c.states, found, 4), c.summFreq + 4, found, Adder(orderFall)))
  {
    hide Before;
    hide Rescale;
    hide Ranked;
    var s := Bump(c.states, found, 4);
    BumpedFour(c.states, c.summFreq, found);
    SameOrder(c.states, s, s[found].symbol);
    if 124 < s[found].freq {
      RescalePlaces(c, s, found, found, orderFall);
    }
  }

  lemma FirstPlaces(c: Context, orderFall: nat)
    requires KeptContext(c) && |c.states| != 1 && c.states != []
    ensures Placed(c, 0, false, AfterFirst(c, orderFall))
  {
    BumpPlaces(c, 0, orderFall);
  }

  lemma EscapedPlaces(c: Context, found: nat, orderFall: nat)
    requires KeptContext(c) && |c.states| != 1 && found < |c.states|
    ensures Placed(c, found, false, AfterEscaped(c, found, orderFall))
  {
    BumpPlaces(c, found, orderFall);
  }

  lemma LaterPlaces(c: Context, found: nat, orderFall: nat)
    requires KeptContext(c) && |c.states| != 1 && 0 < found < |c.states|
    ensures Placed(c, found, true, AfterLater(c, found, orderFall))
  {
    hide Before;
    hide Rescale;
    hide Ranked;
    var s := Bump(c.states, found, 4);
    BumpedFour(c.states, c.summFreq, found);
    if s[found].freq > s[found - 1].freq {
      var t := Swap(s, found);
      SwapBumped(s, c.summFreq + 4, found);
      assert Passed(c.states, t, found);
      PassedOrder(c.states, t, found);
      if 124 < s[found].freq {
        RescalePlaces(c, t, found, found - 1, orderFall);
      }
    }
  }

  // ---------- the suffix context ----------

  /** One symbol gains `more`, and all others stay. */
  ghost predicate Favours(s: seq<State>, x: Byte, more: nat, r: seq<State>) {
    forall y: Byte :: FreqOf(r, y) == FreqOf(s, y) + if y == x then more else 0
  }

  /** The symbol passes the one before it when it has as many. */
  ghost predicate SuffixPlaced(s: seq<State>, at: nat, r: seq<State>)
    requires at < |s|
  {
    if 0 < at && s[at - 1].freq <= s[at].freq then Passed(s, r, at) else SamePlaces(s, r)
  }

  lemma SuffixOne(c: Context, symbol: Byte)
    requires |c.states| == 1 && c.states[0].symbol == symbol
    ensures var r := AfterSuffix(c, symbol);
            && r.summFreq == c.summFreq && SamePlaces(c.states, r.states)
            && Favours(c.states, symbol, if c.states[0].freq < 32 then 1 else 0, r.states)
  {
    var r := AfterSuffix(c, symbol);
    assert c.states[..0] == [] && r.states[..0] == [];
  }

  /** A frequency of the suffix below 115 gains two, and so does the total; a single state gains one up to 32. */
  lemma SuffixLearns(c: Context, symbol: Byte) returns (at: nat)
    requires KeptContext(c) && symbol as int in Symbols(c.states)
    ensures at < |c.states| && c.states[at].symbol == symbol
    ensures var r := AfterSuffix(c, symbol);
            var limit, step := if |c.states| == 1 then 32 else 115, if |c.states| == 1 then 1 else 2;
            var more := if FreqOf(c.states, symbol) < limit then step else 0;
            && Favours(c.states, symbol, more, r.states) && SuffixPlaced(c.states, at, r.states)
            && r.summFreq == c.summFreq + if |c.states| == 1 then 0 else more
  {
    if |c.states| == 1 {
      at := 0;
      SuffixOne(c, symbol);
      FreqAt(c.states, 0);
    } else {
      at := PlaceOf(c.states, symbol);
      FreqAt(c.states, at);
      var up := at != 0 && c.states[at].freq >= c.states[at - 1].freq;
      var s, j := if up then Swap(c.states, at) else c.states, if up then at - 1 else at;
      if up {
        SwapPermutes(c.states, at);
        PermutedDistinct(c.states, s);
      }
      SuffixMany(c, symbol, s, j, at);
    }
  }

  lemma SuffixMany(c: Context, symbol: Byte, s: seq<State>, j: nat, at: nat)
    requires Distinct(c.states) && multiset(s) == multiset(c.states) && j < |s| && s[j].symbol == symbol && Distinct(s)
    ensures Favours(c.states, symbol, 0, s) && Favours(c.states, symbol, 2, Bump(s, j, 2))
    ensures SamePlaces(s, Bump(s, j, 2))
  {
    forall y: Byte ensures FreqOf(s, y) == FreqOf(c.states, y) {
      FreqPermuted(c.states, s, y);
    }
    forall y: Byte ensures FreqOf(Bump(s, j, 2), y) == FreqOf(s, y) + if y == symbol then 2 else 0 {
      FreqBump(s, j, 2, y);
    }
  }

  // ---------- a new symbol ----------

  /** One more for each of the multiples of `sf` that `cf` reaches: 1, where it has to be passed, 4, 6, 9, 12 and 15. */
  ghost predicate Staircase(cf: nat, sf: nat, f: nat) {
    && 1 <= f <= 7 && (2 <= f <==> sf < cf) && (3 <= f <==> 4 * sf <= cf) && (4 <= f <==> 6 * sf <= cf)
    && (5 <= f <==> 9 * sf <= cf) && (6 <= f <==> 12 * sf <= cf) && (7 <= f <==> 15 * sf <= cf)
  }

  /** The states there were; one that was alone has its frequency doubled, or 120 from 30 on. */
  ghost predicate KeepsStates(c: Context, r: Context) {
    && |c.states| < |r.states|
    && if |c.states| == 1 then
         && r.states[0].symbol == c.states[0].symbol
         && r.states[0].freq == if c.states[0].freq < 30 then 2 * c.states[0].freq else 120
       else r.states[..|c.states|] == c.states
  }

  /** The total before the share of the new state: a little more when the found context has far more states. */
  ghost predicate Base(c: Context, ns: nat, initEsc: nat, first: nat, base: nat) {
    var n := |c.states|;
    if n == 1 then base == first + initEsc + if 3 < ns then 1 else 0
    else base == c.summFreq + (if 2 * n < ns then 1 else 0) + if 4 * n <= ns && c.summFreq <= 8 * n then 2 else 0
  }

  /** `c` with the symbol, of which the context it was found in has `found` of `s0` and of `ns` states. */
  ghost predicate Appends(c: Context, symbol: Byte, found: nat, s0: nat, ns: nat, initEsc: nat, r: Context) {
    && c.states != [] && KeepsStates(c, r)
    && |r.states| == |c.states| + 1 && r.states[|c.states|].symbol == symbol
    && exists base: nat :: Shares(c, found, s0, ns, initEsc, r, base)
  }

  /** The new frequency is the ratio of the frequency found to what the others have, in steps. */
  ghost predicate Shares(c: Context, found: nat, s0: nat, ns: nat, initEsc: nat, r: Context, base: nat)
    requires |r.states| == |c.states| + 1
  {
    var f := r.states[|c.states|].freq;
    && Base(c, ns, initEsc, r.states[0].freq, base)
    && Staircase(2 * found * (base + 6), s0 + base, f)
    && r.summFreq == base + if f < 3 then 3 else f
  }

  lemma NewFreqClimbs(found: nat, s0: nat, base: nat)
    requires 0 < s0 + base
    ensures var (f, grow) := NewFreq(found, s0, base);
            Staircase(2 * found * (base + 6), s0 + base, f) && grow == if f < 3 then 3 else f
  {
  }

  lemma AppendLearns(c: Context, symbol: Byte, found: nat, s0: nat, ns: nat, initEsc: nat)
    requires KeptContext(c) && c.states != []
    ensures Appends(c, symbol, found, s0, ns, initEsc, Append(c, symbol, found, s0, ns, initEsc))
  {
    hide Staircase;
    hide NewFreq;
    hide Distinct;
    var o := Opened(c, ns, initEsc);
    var r := Append(c, symbol, found, s0, ns, initEsc);
    NewFreqClimbs(found, s0, o.summFreq);
    assert r.states[..|c.states|] == o.states;
    assert Shares(c, found, s0, ns, initEsc, r, o.summFreq);
  }
}
