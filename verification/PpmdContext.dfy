/** Contexts of the PPMd7 model: symbols with frequencies, a total with room for an escape, and the suffix chain. */
module PpmdContext {
  import opened Words

  datatype State = State(symbol: Byte, freq: nat)

  datatype Context = Context(states: seq<State>, summFreq: nat)

  const MAX_FREQ: nat := 124

  function SumFreq(s: seq<State>): nat {
    if s == [] then 0 else SumFreq(s[..|s| - 1]) + s[|s| - 1].freq
  }

  function Symbols(s: seq<State>): set<int> {
    set i | 0 <= i < |s| :: s[i].symbol as int
  }

  ghost predicate Distinct(s: seq<State>) {
    forall i, j :: 0 <= i < j < |s| ==> s[i].symbol != s[j].symbol
  }

  ghost predicate FreqsIn(s: seq<State>, lo: nat, hi: nat) {
    forall i :: 0 <= i < |s| ==> lo <= s[i].freq <= hi
  }

  /** A context the coder can use. A context with one state is coded by a bit, and keeps no total. */
  ghost predicate Usable(c: Context) {
    && 1 <= |c.states| <= 256
    && Distinct(c.states)
    && FreqsIn(c.states, 1, 128)
    && (1 < |c.states| ==> SumFreq(c.states) < c.summFreq < 0x1_0000)
  }

  /**
    The suffix chain from MinContext (index 0) to the root: every context's symbols are contained in its suffix's,
    and the root knows every symbol.
   */
  ghost predicate UsableChain(chain: seq<Context>) {
    && 0 < |chain|
    && (forall i :: 0 <= i < |chain| ==> Usable(chain[i]))
    && (forall i :: 0 < i < |chain| ==> Symbols(chain[i - 1].states) <= Symbols(chain[i].states))
    && |chain[|chain| - 1].states| == 256
  }

  // ---------- sets of symbols ----------

  function UpTo(n: nat): (r: set<int>)
    ensures |r| == n && forall x :: x in r <==> 0 <= x < n
  {
    if n == 0 then {} else UpTo(n - 1) + {n - 1}
  }

  lemma SubsetSize<T>(a: set<T>, b: set<T>)
    requires a <= b
    ensures |a| <= |b|
  {
    assert b == a + (b - a);
  }

  // ---------- sums ----------

  lemma SumFreqSnoc(s: seq<State>, x: State)
    ensures SumFreq(s + [x]) == SumFreq(s) + x.freq
  {
    assert (s + [x])[..|s|] == s;
  }

  lemma SumFreqAt(s: seq<State>, i: nat)
    requires i < |s|
    ensures SumFreq(s[..i + 1]) == SumFreq(s[..i]) + s[i].freq
  {
    assert s[..i + 1][..i] == s[..i];
  }

  lemma {:induction false} SumFreqAppend(a: seq<State>, b: seq<State>)
    ensures SumFreq(a + b) == SumFreq(a) + SumFreq(b)
  {
    if b == [] {
      assert a + b == a;
    } else {
      SumFreqAppend(a, b[..|b| - 1]);
      assert (a + b)[..|a + b| - 1] == a + b[..|b| - 1];
    }
  }

  lemma {:induction false} SumFreqPrefix(s: seq<State>, i: nat, j: nat)
    requires i <= j <= |s|
    ensures SumFreq(s[..i]) <= SumFreq(s[..j])
  {
    SumFreqAppend(s[..i], s[i..j]);
    assert s[..i] + s[i..j] == s[..j];
  }

  lemma {:induction false} SumFreqBound(s: seq<State>, hi: nat)
    requires FreqsIn(s, 0, hi)
    ensures SumFreq(s) <= hi * |s|
  {
    if s == [] {
    } else {
      SumFreqBound(s[..|s| - 1], hi);
      assert hi * |s| == hi * (|s| - 1) + hi;
    }
  }

  // ---------- symbols of a list of states ----------

  /** Distinct symbols: as many symbols as states. */
  lemma {:induction false} CountSymbols(s: seq<State>)
    requires Distinct(s)
    ensures |Symbols(s)| == |s|
  {
    if s == [] {
    } else {
      var front, last := s[..|s| - 1], s[|s| - 1];
      CountSymbols(front);
      assert Symbols(s) == Symbols(front) + {last.symbol} by {
        forall x | x in Symbols(s) ensures x in Symbols(front) + {last.symbol} {
          var i :| 0 <= i < |s| && s[i].symbol == x;
          if i < |front| {
            assert front[i].symbol == x;
          }
        }
        forall x | x in Symbols(front) ensures x in Symbols(s) {
          var i :| 0 <= i < |front| && front[i].symbol == x;
          assert s[i].symbol == x;
        }
      }
      assert last.symbol !in Symbols(front);
    }
  }

  /** The states whose symbol is not masked, in order. */
  function Visible(s: seq<State>, masked: set<int>): (r: seq<State>)
    ensures |r| <= |s|
  {
    if s == [] then []
    else
      var front := Visible(s[..|s| - 1], masked);
      if s[|s| - 1].symbol in masked then front else front + [s[|s| - 1]]
  }

  lemma VisibleAt(s: seq<State>, masked: set<int>, i: nat)
    requires i < |s|
    ensures Visible(s[..i + 1], masked)
         == if s[i].symbol in masked then Visible(s[..i], masked) else Visible(s[..i], masked) + [s[i]]
  {
    assert s[..i + 1][..i] == s[..i];
  }

  /** Masking removes exactly the masked symbols. */
  lemma {:induction false} VisibleMembers(s: seq<State>, masked: set<int>)
    ensures forall x :: x in Visible(s, masked) <==> x in s && x.symbol !in masked
  {
    if s == [] {
    } else {
      var front, last := s[..|s| - 1], s[|s| - 1];
      VisibleMembers(front, masked);
      assert s == front + [last];
    }
  }

  lemma {:induction false} VisibleDistinct(s: seq<State>, masked: set<int>)
    requires Distinct(s)
    ensures Distinct(Visible(s, masked))
  {
    if s == [] {
    } else {
      var front, last := s[..|s| - 1], s[|s| - 1];
      VisibleDistinct(front, masked);
      VisibleMembers(front, masked);
      forall i | 0 <= i < |Visible(front, masked)|
        ensures Visible(front, masked)[i].symbol != last.symbol
      {
        assert Visible(front, masked)[i] in front;
      }
    }
  }

  /** When the masked symbols all occur, the number left is the difference. */
  lemma {:induction false} VisibleCount(s: seq<State>, masked: set<int>)
    requires Distinct(s)
    ensures |Visible(s, masked)| == |s| - |Symbols(s) * masked|
  {
    if s == [] {
      assert Symbols(s) * masked == {};
    } else {
      var front, last := s[..|s| - 1], s[|s| - 1];
      VisibleCount(front, masked);
      SymbolsSnoc(front, last);
      assert s == front + [last];
      assert last.symbol !in Symbols(front);
      if last.symbol in masked {
        assert Symbols(s) * masked == Symbols(front) * masked + {last.symbol};
      } else {
        assert Symbols(s) * masked == Symbols(front) * masked;
      }
    }
  }

  lemma SymbolsSnoc(s: seq<State>, x: State)
    ensures Symbols(s + [x]) == Symbols(s) + {x.symbol}
  {
    var t := s + [x];
    forall y | y in Symbols(t) ensures y in Symbols(s) + {x.symbol} {
      var i :| 0 <= i < |t| && t[i].symbol == y;
      if i < |s| {
        assert s[i].symbol == y;
      }
    }
    forall y | y in Symbols(s) ensures y in Symbols(t) {
      var i :| 0 <= i < |s| && s[i].symbol == y;
      assert t[i].symbol == y;
    }
    assert t[|s|].symbol == x.symbol;
  }
}
