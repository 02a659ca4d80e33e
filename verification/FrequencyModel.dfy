/** The PPMd7 update procedures on contexts held in memory: states move and are swapped in place. */
module FrequencyModel {
  import opened Words
  import opened PpmdContext
  import opened FrequencySpec
  import opened SizeClasses

  /** The state array of a block that serves `n` states, two to a unit. */
  function Capacity(n: nat): nat
    requires 1 <= n
  {
    2 * I2U(U2I((n + 1) / 2))
  }

  lemma CapacityRoom(n: nat)
    requires 1 <= n <= 256
    ensures n <= Capacity(n)
  {
    SmallestClass((n + 1) / 2, U2I((n + 1) / 2));
  }

  /** One state more needs another block exactly when the count is even and the next unit is in another class. */
  lemma CapacityGrows(n: nat)
    requires 1 <= n < 256
    ensures Capacity(n + 1) != Capacity(n) <==> n % 2 == 0 && U2I(n / 2) != U2I(n / 2 + 1)
  {
    if n % 2 == 0 {
      assert (n + 1) / 2 == n / 2 && (n + 2) / 2 == n / 2 + 1;
      DifferentClasses(n / 2, n / 2 + 1);
    } else {
      assert (n + 2) / 2 == (n + 1) / 2;
    }
  }

  lemma DifferentClasses(a: nat, b: nat)
    requires 1 <= a < b <= 128
    ensures I2U(U2I(a)) == I2U(U2I(b)) ==> U2I(a) == U2I(b)
  {
    SmallestClass(a, U2I(a));
    SmallestClass(b, U2I(a));
    SmallestClass(a, U2I(b));
  }

  class Context7 {
    var numStats: nat
    var summFreq: nat
    /** The states, when there are several. */
    var stats: array<State>
    /** The state, when there is one. */
    var one: State

    /** The shape of the object in memory. */
    ghost predicate Shaped()
      reads this
    {
      1 <= numStats <= 256 && (numStats != 1 ==> stats.Length == Capacity(numStats) && numStats <= stats.Length)
    }

    ghost function Value(): Context
      reads this, stats
      requires Shaped()
    {
      if numStats == 1 then Context([one], 0) else Context(stats[..numStats], summFreq)
    }

    ghost predicate Valid()
      reads this, stats
    {
      Shaped() && KeptContext(Value())
    }

    constructor (one: State)
      requires 1 <= one.freq <= 128
      ensures Valid() && Value() == Context([one], 0) && fresh(stats)
    {
      this.numStats, this.summFreq, this.one := 1, 0, one;
      this.stats := new State[0];
    }
  }

  /** Inserting passes every smaller frequency, and stops where there is none before. */
  lemma {:induction false} InsertBehind(s: seq<State>, x: State, k: nat)
    requires k <= |s| && (forall i :: k <= i < |s| ==> s[i].freq < x.freq) && (k == 0 || x.freq <= s[k - 1].freq)
    ensures InsertDesc(s, x) == s[..k] + [x] + s[k..]
  {
    if k == |s| {
      assert s[..k] == s && s[k..] == [];
    } else {
      var n := |s| - 1;
      InsertBehind(s[..n], x, k);
      assert s[..n][..k] == s[..k] && s[k..] == s[..n][k..] + [s[n]];
    }
  }

  /** One place was opened for `x`, the states behind it moved by one. */
  lemma PlaceOpened(r: seq<State>, was: seq<State>, x: State, k: nat)
    requires k <= |was| && |r| == |was| + 1 && r[k] == x && r[..k] == was[..k]
    requires forall i :: k < i < |r| ==> r[i] == was[i - 1]
    ensures r == was[..k] + [x] + was[k..]
  {
  }

  /** Every smaller frequency before place `k` moves up by one place; `s1` is the place opened. */
  method OpenPlace(a: array<State>, k: nat, tmp: State) returns (s1: nat)
    requires 0 < k < a.Length && tmp == a[k] && tmp.freq > a[k - 1].freq
    modifies a
    ensures s1 < k && a[..s1] == old(a[..s1]) && (s1 == 0 || tmp.freq <= old(a[s1 - 1].freq))
    ensures forall i :: s1 <= i < k ==> old(a[i]).freq < tmp.freq
    ensures forall i :: s1 < i <= k ==> a[i] == old(a[i - 1])
    ensures forall i :: k < i < a.Length ==> a[i] == old(a[i])
  {
    s1 := k;
    while true
      invariant 0 < s1 <= k && tmp.freq > old(a[s1 - 1].freq)
      invariant a[..s1] == old(a[..s1]) && forall i :: s1 <= i < k ==> old(a[i]).freq < tmp.freq
      invariant forall i :: s1 < i <= k ==> a[i] == old(a[i - 1])
      invariant forall i :: k < i < a.Length ==> a[i] == old(a[i])
      decreases s1
    {
      a[s1] := a[s1 - 1];
      s1 := s1 - 1;
      if s1 == 0 || tmp.freq <= a[s1 - 1].freq {
        break;
      }
    }
  }

  /** Moves the state at `k` down past every smaller frequency of the sorted part before it. */
  method InsertState(a: array<State>, k: nat)
    requires 0 < k < a.Length
    modifies a
    ensures a[..k + 1] == InsertDesc(old(a[..k]), old(a[k]))
    ensures forall i :: k < i < a.Length ==> a[i] == old(a[i])
  {
    hide InsertDesc;
    ghost var was := a[..k];
    var tmp := a[k];
    var s1 := k;
    if tmp.freq > a[k - 1].freq {
      s1 := OpenPlace(a, k, tmp);
      a[s1] := tmp;
    }
    assert a[..s1] == was[..s1];
    InsertBehind(was, tmp, s1);
    PlaceOpened(a[..k + 1], was, tmp, s1);
  }

  /** Moves the state at `found` to the front, the others up by one. */
  method MoveToFront(a: array<State>, found: nat, ghost n: nat)
    requires found < n <= a.Length
    modifies a
    ensures a[..n] == ToFront(old(a[..n]), found)
  {
    ghost var was := a[..n];
    var tmp := a[found];
    var s := found;
    while s != 0
      invariant s <= found
      invariant forall i :: 0 <= i < s || found < i < n ==> a[i] == was[i]
      invariant forall i :: s < i <= found ==> a[i] == was[i - 1]
    {
      a[s] := a[s - 1];
      s := s - 1;
    }
    a[s] := tmp;
    assert a[..n] == ToFront(was, found);
  }

  class Ppmd7Model {
    var minContext: Context7
    var foundState: nat
    var orderFall: nat
    var prevSuccess: nat
    var runLength: int
    var initRL: int

    constructor (c: Context7, initRL: int)
      ensures minContext == c && foundState == 0 && orderFall == 0
    {
      minContext, foundState, orderFall, prevSuccess := c, 0, 0, 0;
      runLength, this.initRL := initRL, initRL;
    }

    /** Halves the state at `i` and inserts it into the sorted part before it. */
    method HalveState(a: array<State>, i: nat) returns (freq: nat)
      requires 0 < i < a.Length
      modifies a
      ensures var x := Halved(old(a[i]), Adder(orderFall));
              a[..i + 1] == InsertDesc(old(a[..i]), x) && freq == x.freq
      ensures forall j :: i < j < a.Length ==> a[j] == old(a[j])
    {
      a[i] := a[i].(freq := (a[i].freq + Adder(orderFall)) / 2);
      freq := a[i].freq;
      assert a[..i] == old(a[..i]);
      InsertState(a, i);
    }

    /** The first state gets four more before it is halved. */
    method HalveFirst(a: array<State>) returns (before: nat, freq: nat)
      requires 0 < a.Length
      modifies a
      ensures before == old(a[0]).freq
      ensures a[0] == Halved(old(a[0]), 4 + Adder(orderFall)) && freq == a[0].freq
      ensures forall j :: 0 < j < a.Length ==> a[j] == old(a[j])
    {
      before := a[0].freq;
      a[0] := a[0].(freq := a[0].freq + 4);
      a[0] := a[0].(freq := (a[0].freq + Adder(orderFall)) / 2);
      freq := a[0].freq;
    }

    /** Halves and sorts the states in place, and keeps the two running totals. */
    method HalveAndSort(a: array<State>, n: nat, summ: nat, ghost moved: seq<State>)
      returns (sumFreq: nat, escFreq: nat)
      requires 2 <= n <= a.Length && |moved| == n && (forall k :: 0 <= k < n ==> a[k] == moved[k])
      requires SumFreq(moved) < summ
      modifies a
      ensures a[..n] == SortDesc(Scaled(moved, Adder(orderFall)))
      ensures sumFreq == SumFreq(a[..n]) && escFreq == summ - SumFreq(moved)
    {
      hide SortDesc;
      hide Scaled;
      ghost var scaled := Scaled(moved, Adder(orderFall));
      SumFreqPrefixes(moved, 0);
      SumFreqAt(scaled, 0);
      SortDescOne(scaled);
      var before;
      before, sumFreq := HalveFirst(a);
      escFreq := summ - before;
      var i := 1;
      while i < n
        invariant 1 <= i <= n
        invariant a[..i] == SortDesc(scaled[..i])
        invariant forall k :: i <= k < n ==> a[k] == moved[k]
        invariant sumFreq == SumFreq(scaled[..i]) && escFreq == summ - SumFreq(moved[..i])
      {
        SumFreqPrefixes(moved, i);
        SumFreqAt(scaled, i);
        SortDescNext(scaled, i);
        escFreq := escFreq - a[i].freq;
        var freq := HalveState(a, i);
        sumFreq := sumFreq + freq;
        i := i + 1;
      }
      assert scaled[..n] == scaled && moved[..n] == moved;
      SortDescSum(scaled);
    }

    /** How many states are left when the zeros at the end are not counted; the last one is zero. */
    method CountKept(a: array<State>, n: nat, ghost s: seq<State>) returns (kept: nat)
      requires 2 <= n <= a.Length && a[..n] == s && s[n - 1].freq == 0 && 0 < s[0].freq
      ensures kept == |Trim(s)| && 1 <= kept < n && Trim(s) == s[..kept]
    {
      hide Trim;
      kept := n - 1;
      assert s[..n] == s;
      TrimNext(s, n);
      while a[kept - 1].freq == 0
        invariant 1 <= kept < n && Trim(s) == Trim(s[..kept])
        decreases kept
      {
        assert a[..n][kept - 1] == s[kept - 1];
        TrimNext(s, kept);
        kept := kept - 1;
      }
      assert a[..n][kept - 1] == s[kept - 1];
      TrimDone(s, kept);
    }

    /** Halves the frequency of the only state left once for every bit of the escape share, at least once. */
    method Collapse(freq: nat, esc: nat) returns (r: nat)
      ensures r == CollapseFreq(freq, esc)
    {
      r := freq;
      var e := esc;
      while true
        invariant CollapseFreq(r, e) == CollapseFreq(freq, esc)
        decreases e
      {
        r := r - r / 2;
        e := e / 2;
        if e <= 1 {
          break;
        }
      }
    }

    /** The states move to a block of the smaller class when the number of units changes class. */
    method ShrinkStats(c: Context7, n0: nat, kept: nat)
      requires 2 <= kept <= n0 <= 256 && c.numStats == kept && c.stats.Length == Capacity(n0) && n0 <= c.stats.Length
      modifies c`stats
      ensures c.Shaped() && c.stats[..kept] == old(c.stats[..kept])
      ensures c.stats == old(c.stats) || fresh(c.stats)
    {
      CapacityRoom(kept);
      if U2I((n0 + 1) / 2) != U2I((kept + 1) / 2) {
        var moved := new State[Capacity(kept)];
        forall i | 0 <= i < kept {
          moved[i] := c.stats[i];
        }
        c.stats := moved;
      }
    }

    /** Rescale, for the state FoundState whose frequency has just passed the limit. */
    method Rescale(ghost was: seq<State>)
      requires minContext.Shaped() && minContext.numStats != 1 && was == minContext.stats[..minContext.numStats]
      requires Bumped(was, minContext.summFreq, foundState) && MAX_FREQ < was[foundState].freq
      modifies `foundState, minContext, minContext.stats
      ensures minContext.Valid() && foundState == 0
      ensures minContext.stats == old(minContext.stats) || fresh(minContext.stats)
      ensures minContext.Value() == ContextOf(
                FrequencySpec.Rescale(was, old(minContext.summFreq), old(foundState), Adder(orderFall)))
    {
      hide Symbols;
      hide SumFreq;
      hide Distinct;
      hide Sorted;
      hide Trim;
      hide Capacity;
      ghost var summ, found := minContext.summFreq, foundState;
      RescaleRoom(was, summ, found, Adder(orderFall));
      var sumFreq, escFreq := SortStates(was);
      foundState := 0;
      DropZeros(minContext, sumFreq, escFreq, Sorted(was, found, Adder(orderFall)));
    }

    method SortStates(ghost was: seq<State>) returns (sumFreq: nat, escFreq: nat)
      requires minContext.Shaped() && minContext.numStats != 1 && foundState < minContext.numStats
      requires was == minContext.Value().states && SumFreq(was) < minContext.summFreq
      modifies minContext.stats
      ensures minContext.stats[..minContext.numStats] == Sorted(was, foundState, Adder(orderFall))
      ensures sumFreq == SumFreq(Sorted(was, foundState, Adder(orderFall))) && escFreq == Escape(was, minContext.summFreq)
    {
      hide SumFreq;
      var a, n := minContext.stats, minContext.numStats;
      MoveToFront(a, foundState, n);
      ghost var moved := ToFront(was, foundState);
      ToFrontSum(was, foundState);
      forall k | 0 <= k < n ensures a[k] == moved[k] {
        assert a[..n][k] == a[k];
      }
      sumFreq, escFreq := HalveAndSort(a, n, minContext.summFreq, moved);
    }

    /** The states halved to zero go; a state left alone moves into the context itself. */
    method DropZeros(c: Context7, sumFreq: nat, escFreq: nat, ghost sorted: seq<State>)
      requires c.Shaped() && c.numStats != 1 && c.stats[..c.numStats] == sorted
      requires 0 < sorted[0].freq && sumFreq == SumFreq(sorted)
      requires SumFreq(sorted) + escFreq + |sorted| < 0x1_0000
      modifies c
      ensures c.Shaped() && c.Value() == ContextOf(ShareOut(sorted, escFreq))
      ensures c.stats == old(c.stats) || fresh(c.stats)
    {
      hide Capacity;
      var n := c.numStats;
      TrimSum(sorted);
      if c.stats[n - 1].freq == 0 {
        var kept := CountKept(c.stats, n, sorted);
        var esc := escFreq + (n - kept);
        c.numStats := kept;
        if kept == 1 {
          var freq := Collapse(c.stats[0].freq, esc);
          c.one := c.stats[0].(freq := freq);
        } else {
          ShrinkStats(c, n, kept);
          c.summFreq := ShareTotal(sumFreq, esc);
        }
      } else {
        c.summFreq := ShareTotal(sumFreq, escFreq);
      }
    }

    function ShareTotal(sumFreq: nat, esc: nat): (r: nat)
      ensures sumFreq + esc < 0x1_0000 ==> r == sumFreq + HalfUp(esc)
    {
      (sumFreq + esc - esc / 2) % 0x1_0000
    }

    /** A context with several states and FoundState among them. */
    ghost predicate Ready()
      reads this, minContext, minContext.stats
    {
      minContext.Valid() && minContext.numStats != 1 && foundState < minContext.numStats
    }

    /** FoundState and its context are what `r` says. */
    ghost predicate Became(r: (Context, nat))
      reads this, minContext, minContext.stats
    {
      minContext.Valid() && minContext.Value() == r.0 && foundState == r.1
    }

    /** The found state and the total get four more. */
    method BumpFound()
      requires Ready()
      modifies minContext`summFreq, minContext.stats
      ensures minContext.Shaped() && minContext.summFreq == old(minContext.summFreq) + 4
      ensures minContext.Value().states == Bump(old(minContext.Value().states), foundState, 4)
      ensures Bumped(minContext.Value().states, minContext.summFreq, foundState)
    {
      var c := minContext;
      ghost var s := c.Value().states;
      BumpedFour(s, c.summFreq, foundState);
      BumpedTotal(Bump(s, foundState, 4), c.summFreq + 4, foundState);
      c.summFreq := (c.summFreq + 4) % 0x1_0000;
      c.stats[foundState] := c.stats[foundState].(freq := c.stats[foundState].freq + 4);
      assert c.stats[..c.numStats] == Bump(s, foundState, 4);
    }

    method RescaleIfOver()
      requires minContext.Shaped() && minContext.numStats != 1
      requires Bumped(minContext.Value().states, minContext.summFreq, foundState)
      modifies `foundState, minContext, minContext.stats
      ensures minContext.stats == old(minContext.stats) || fresh(minContext.stats)
      ensures Became(old(AfterBump(minContext.Value().states, minContext.summFreq, foundState, Adder(orderFall))))
    {
      hide FrequencySpec.Rescale;
      hide Capacity;
      if minContext.stats[foundState].freq > MAX_FREQ {
        Rescale(minContext.stats[..minContext.numStats]);
      } else {
        BumpedWithin(minContext.Value().states, minContext.summFreq, foundState);
      }
    }

    /** Update1_0, before the next context is chosen: the first state was found. */
    method Update1First()
      requires Ready() && foundState == 0
      modifies this, minContext, minContext.stats
      ensures minContext == old(minContext) && (minContext.stats == old(minContext.stats) || fresh(minContext.stats))
      ensures Became(old(AfterFirst(minContext.Value(), orderFall)))
      ensures prevSuccess == (if 2 * old(minContext.stats[0].freq) > old(minContext.summFreq) then 1 else 0)
      ensures runLength == old(runLength) + prevSuccess && orderFall == old(orderFall)
    {
      hide FrequencySpec.Rescale;
      hide Capacity;
      prevSuccess := if 2 * minContext.stats[foundState].freq > minContext.summFreq then 1 else 0;
      runLength := runLength + prevSuccess;
      BumpFound();
      RescaleIfOver();
    }

    /** Update1, before the next context is chosen: a later state was found, and may pass the one before it. */
    method Update1Later()
      requires Ready() && 0 < foundState
      modifies this, minContext, minContext.stats
      ensures minContext == old(minContext) && (minContext.stats == old(minContext.stats) || fresh(minContext.stats))
      ensures Became(old(AfterLater(minContext.Value(), foundState, orderFall)))
      ensures orderFall == old(orderFall)
    {
      hide FrequencySpec.Rescale;
      hide Capacity;
      hide Symbols;
      hide SumFreq;
      hide Distinct;
      hide AfterBump;
      hide Adder;
      BumpFound();
      if minContext.stats[foundState].freq > minContext.stats[foundState - 1].freq {
        PassBefore();
        RescaleIfOver();
      } else {
        BumpedWithin(minContext.Value().states, minContext.summFreq, foundState);
      }
    }

    /** FoundState and the state before it change places. */
    method PassBefore()
      requires minContext.Shaped() && minContext.numStats != 1 && 0 < foundState
      requires Bumped(minContext.Value().states, minContext.summFreq, foundState)
      modifies `foundState, minContext.stats
      ensures minContext.Shaped() && foundState == old(foundState) - 1
      ensures minContext.Value().states == Swap(old(minContext.Value().states), old(foundState))
      ensures Bumped(minContext.Value().states, minContext.summFreq, foundState)
    {
      SwapBumped(minContext.Value().states, minContext.summFreq, foundState);
      SwapDown(minContext.stats, foundState, minContext.numStats);
      foundState := foundState - 1;
    }

    /** Update2, before the model is updated: a state was found after an escape. */
    method Update2()
      requires Ready()
      modifies this, minContext, minContext.stats
      ensures minContext == old(minContext) && (minContext.stats == old(minContext.stats) || fresh(minContext.stats))
      ensures Became(old(AfterEscaped(minContext.Value(), foundState, orderFall)))
      ensures runLength == initRL == old(initRL) && orderFall == old(orderFall)
    {
      hide FrequencySpec.Rescale;
      hide Capacity;
      BumpFound();
      RescaleIfOver();
      runLength := initRL;
    }

    /** UpdateBin, before the next context is chosen. */
    method UpdateBin()
      requires minContext.Valid() && minContext.numStats == 1
      modifies this, minContext
      ensures minContext == old(minContext) && minContext.Valid()
      ensures minContext.Value() == old(Context([minContext.one.(freq :=
                if minContext.one.freq < 128 then minContext.one.freq + 1 else minContext.one.freq)], 0))
      ensures prevSuccess == 1 && runLength == old(runLength) + 1
    {
      var c := minContext;
      c.one := c.one.(freq := c.one.freq + if c.one.freq < 128 then 1 else 0);
      prevSuccess := 1;
      runLength := runLength + 1;
    }

    /** The state of the symbol moves up by one place if it has caught up, and gets two more below the limit. */
    method BumpPlaced(c: Context7, symbol: Byte)
      requires c.Shaped() && c.numStats != 1 && symbol as int in Symbols(c.Value().states) && Distinct(c.Value().states)
      modifies c`summFreq, c.stats
      ensures c.Shaped() && c.Value() == AfterSuffix(old(c.Value()), symbol)
    {
      hide Symbols;
      hide Capacity;
      hide Distinct;
      var a, n := c.stats, c.numStats;
      var s := FindSymbol(a, n, symbol);
      if s != 0 && a[s].freq >= a[s - 1].freq {
        SwapDown(a, s, n);
        s := s - 1;
      }
      if a[s].freq < MAX_FREQ - 9 {
        ghost var placed := a[..n];
        a[s] := a[s].(freq := a[s].freq + 2);
        assert a[..n] == Bump(placed, s, 2);
        c.summFreq := c.summFreq + 2;
      }
    }

    /**
      The first part of UpdateModel: the state of the same symbol in the suffix context moves up one place when it has
      caught up with the one before, and gets two more unless it is close to the limit.
     */
    method BumpSuffix(c: Context7, symbol: Byte)
      requires c.Valid() && symbol as int in Symbols(c.Value().states)
      modifies c, c.stats
      ensures c.Valid() && c.stats == old(c.stats)
      ensures c.Value() == AfterSuffix(old(c.Value()), symbol)
      ensures Symbols(c.Value().states) == Symbols(old(c.Value()).states)
    {
      hide Symbols;
      hide Capacity;
      ghost var was := c.Value();
      SuffixKeeps(was, symbol);
      if c.numStats == 1 {
        if c.one.freq < 32 {
          c.one := c.one.(freq := c.one.freq + 1);
        }
      } else {
        BumpPlaced(c, symbol);
      }
    }

    /** The end of UpdateModel: every context from MaxContext up to MinContext learns the found symbol. */
    method AppendFound(cs: seq<Context7>, k: nat, initEsc: nat, ghost was: seq<Context>)
      returns (ghost values: seq<Context>)
      requires k < |cs| && ValidChain(cs) && AreValues(cs, was) && 0 < initEsc <= 25
      requires Ready() && minContext == cs[k]
      requires forall i :: 0 <= i < k ==> was[k].states[foundState].symbol as int !in Symbols(was[i].states)
      modifies cs, set i | 0 <= i < |cs| :: cs[i].stats
      ensures ValidChain(cs) && AreValues(cs, values)
      ensures var (min, x) := (was[k], was[k].states[foundState]);
              |min.states| + x.freq <= min.summFreq
              && Appended(was, values, k, x.symbol, x.freq, min.summFreq - |min.states| - (x.freq - 1), |min.states|,
                          initEsc)
    {
      hide Appended;
      hide Capacity;
      hide Symbols;
      hide SumFreq;
      var x := minContext.stats[foundState];
      var ns := minContext.numStats;
      RestPositive(was[k].states, was[k].summFreq, foundState);
      var s0 := minContext.summFreq - ns - (x.freq - 1);
      values := AppendToChain(cs, k, x.symbol, x.freq, s0, ns, initEsc, was);
    }
  }

  // ---------- appending along the suffix chain ----------

  /** A block for one state more, with the old states in it, when the present one is full. */
  method MakeRoom(c: Context7)
    requires c.Shaped() && 2 <= c.numStats < 256
    modifies c`stats
    ensures c.stats.Length == Capacity(c.numStats + 1)
    ensures c.numStats < c.stats.Length && c.stats[..c.numStats] == old(c.stats[..c.numStats])
    ensures c.stats == old(c.stats) || fresh(c.stats)
  {
    hide U2I;
    var n := c.numStats;
    CapacityGrows(n);
    CapacityRoom(n + 1);
    if n % 2 == 0 {
      var oldNU := n / 2;
      if U2I(oldNU) != U2I(oldNU + 1) {
        var moved := new State[Capacity(n + 1)];
        forall i | 0 <= i < n {
          moved[i] := c.stats[i];
        }
        c.stats := moved;
      }
    }
  }

  /** Widens the total of several states, or gives a single state a block of its own. */
  method OpenStates(c: Context7, ns: nat, initEsc: nat, ghost was: Context)
    requires c.Valid() && c.numStats < 256 && was == c.Value()
    modifies c`stats, c`summFreq
    ensures c.stats.Length == Capacity(c.numStats + 1) && c.numStats < c.stats.Length
    ensures c.stats == old(c.stats) || fresh(c.stats)
    ensures c.stats[..c.numStats] == Opened(was, ns, initEsc).states
    ensures c.summFreq == Opened(was, ns, initEsc).summFreq
  {
    if c.numStats != 1 {
      MakeRoom(c);
      c.summFreq := WidenedSumm(c.numStats, ns, c.summFreq);
    } else {
      c.stats := new State[Capacity(2)];
      c.stats[0] := Promoted(c.one);
      c.summFreq := c.stats[0].freq + initEsc + Flag(ns > 3);
    }
  }

  /** One turn of UpdateModel's loop: the found symbol becomes the last state of `c`. */
  method AppendState(c: Context7, symbol: Byte, found: nat, s0: nat, ns: nat, initEsc: nat, ghost was: Context)
    requires c.Valid() && was == c.Value()
    requires symbol as int !in Symbols(was.states) && 0 < initEsc <= 25
    modifies c, c.stats
    ensures c.Valid() && (c.stats == old(c.stats) || fresh(c.stats))
    ensures c.Value() == Append(was, symbol, found, s0, ns, initEsc)
  {
    ghost var r := AppendFacts(was, symbol, found, s0, ns, initEsc);
    hide *;
    OpenStates(c, ns, initEsc, was);
    var n := c.numStats;
    var (freq, grow) := NewFreq(found, s0, c.summFreq);
    AddState(c, State(symbol, freq), grow, r);
  }

  /** What one append does, put together for the method below. */
  lemma AppendFacts(was: Context, symbol: Byte, found: nat, s0: nat, ns: nat, initEsc: nat) returns (r: Context)
    requires KeptContext(was) && symbol as int !in Symbols(was.states) && 0 < initEsc <= 25
    ensures r == Append(was, symbol, found, s0, ns, initEsc) && KeptContext(r) && r.summFreq < 0x1_0000
    ensures |was.states| < 256
    ensures var o := Opened(was, ns, initEsc);
            var (f, grow) := NewFreq(found, s0, o.summFreq);
            r == Context(o.states + [State(symbol, f)], o.summFreq + grow)
  {
    KeptDistinct(was);
    AbsentMeansRoom(was.states, symbol);
    AppendKeeps(was, symbol, found, s0, ns, initEsc);
    r := Append(was, symbol, found, s0, ns, initEsc);
  }

  /** Writes one more state behind the others. */
  method AddState(c: Context7, x: State, grow: nat, ghost r: Context)
    requires 1 <= c.numStats < 256 && c.stats.Length == Capacity(c.numStats + 1) && c.numStats < c.stats.Length
    requires KeptContext(r) && r == Context(c.stats[..c.numStats] + [x], c.summFreq + grow) && r.summFreq < 0x1_0000
    modifies c`summFreq, c`numStats, c.stats
    ensures c.Valid() && c.Value() == r
  {
    hide KeptContext;
    hide Capacity;
    var n := c.numStats;
    c.summFreq := (c.summFreq + grow) % 0x1_0000;
    c.stats[n] := x;
    c.numStats := n + 1;
    assert c.stats[..n + 1] == r.states;
  }

  /** Different contexts, with their states in different blocks, all fit for use. */
  ghost predicate ValidChain(cs: seq<Context7>)
    reads cs, set i | 0 <= i < |cs| :: cs[i].stats
  {
    && (forall i, j :: 0 <= i < j < |cs| ==> cs[i] != cs[j] && cs[i].stats != cs[j].stats)
    && (forall i :: 0 <= i < |cs| ==> cs[i].Valid())
  }

  ghost predicate AreValues(cs: seq<Context7>, values: seq<Context>)
    reads cs, set i | 0 <= i < |cs| :: cs[i].stats
  {
    |values| == |cs| && forall i :: 0 <= i < |cs| ==> cs[i].Valid() && cs[i].Value() == values[i]
  }

  lemma ValuesLength(cs: seq<Context7>, values: seq<Context>)
    requires AreValues(cs, values)
    ensures |values| == |cs|
  {
  }

  /** One turn of the loop leaves the other contexts alone. */
  method AppendAt(cs: seq<Context7>, i: nat, symbol: Byte, found: nat, s0: nat, ns: nat, initEsc: nat,
                  ghost values: seq<Context>)
    returns (ghost values': seq<Context>)
    requires i < |cs| == |values| && ValidChain(cs) && AreValues(cs, values) && 0 < initEsc <= 25
    requires symbol as int !in Symbols(values[i].states)
    modifies cs[i], cs[i].stats
    ensures ValidChain(cs) && AreValues(cs, values') && (cs[i].stats == old(cs[i].stats) || fresh(cs[i].stats))
    ensures forall j :: 0 <= j < |cs| && j != i ==> cs[j].stats == old(cs[j].stats)
    ensures values' == values[i := Append(values[i], symbol, found, s0, ns, initEsc)]
  {
    hide Append;
    hide KeptContext;
    hide Capacity;
    hide Symbols;
    hide Context7.Value;
    hide Context7.Shaped;
    AppendState(cs[i], symbol, found, s0, ns, initEsc, values[i]);
    values' := values[i := Append(values[i], symbol, found, s0, ns, initEsc)];
  }

  /** UpdateModel's loop from MaxContext (index 0) up the suffix links to MinContext (index `k`). */
  method AppendToChain(cs: seq<Context7>, k: nat, symbol: Byte, found: nat, s0: nat, ns: nat, initEsc: nat,
                       ghost was: seq<Context>)
    returns (ghost values: seq<Context>)
    requires k <= |cs| && ValidChain(cs) && AreValues(cs, was) && 0 < initEsc <= 25
    requires forall i :: 0 <= i < k ==> symbol as int !in Symbols(was[i].states)
    modifies cs, set i | 0 <= i < |cs| :: cs[i].stats
    ensures ValidChain(cs) && AreValues(cs, values)
    ensures Appended(was, values, k, symbol, found, s0, ns, initEsc)
  {
    hide Append;
    hide ValidChain;
    hide AreValues;
    hide Symbols;
    ValuesLength(cs, was);
    values := was;
    var i := 0;
    while i != k
      invariant 0 <= i <= k && ValidChain(cs) && AreValues(cs, values)
      invariant forall j :: 0 <= j < |cs| ==> cs[j].stats == old(cs[j].stats) || fresh(cs[j].stats)
      invariant Appended(was, values, i, symbol, found, s0, ns, initEsc)
      decreases k - i
    {
      values := AppendAt(cs, i, symbol, found, s0, ns, initEsc, values);
      i := i + 1;
    }
  }

  method SwapDown(a: array<State>, s: nat, ghost n: nat)
    requires 0 < s < n <= a.Length
    modifies a
    ensures a[..n] == Swap(old(a[..n]), s)
  {
    a[s], a[s - 1] := a[s - 1], a[s];
    assert a[..n] == Swap(old(a[..n]), s);
  }

  /** The place of a symbol that occurs. */
  method FindSymbol(a: array<State>, n: nat, symbol: Byte) returns (s: nat)
    requires n <= a.Length && symbol as int in Symbols(a[..n]) && Distinct(a[..n])
    ensures s < n && s == PlaceOf(a[..n], symbol)
  {
    s := 0;
    ghost var t := a[..n];
    while a[s].symbol != symbol
      invariant s < n && forall k :: 0 <= k < s ==> a[k].symbol != symbol
      decreases n - s
    {
      s := s + 1;
      if s == n {
        assert forall k :: 0 <= k < n ==> t[k].symbol != symbol;
      }
    }
    PlaceIs(t, symbol, s);
  }

  lemma RescaleRoom(s: seq<State>, summ: nat, found: nat, adder: nat)
    requires Bumped(s, summ, found) && MAX_FREQ < s[found].freq && adder < 2
    ensures KeptContext(ContextOf(FrequencySpec.Rescale(s, summ, found, adder)))
    ensures 0 < Sorted(s, found, adder)[0].freq
    ensures SumFreq(Sorted(s, found, adder)) + Escape(s, summ) + |s| < 0x1_0000
  {
    RescaleKeeps(s, summ, found, adder);
    SortedFacts(s, summ, found, adder);
    SumFreqBound(Sorted(s, found, adder), 66);
    assert 66 * |s| <= 66 * 256;
  }

  lemma TrimDone(s: seq<State>, k: nat)
    requires 0 < k <= |s| && 0 < s[k - 1].freq
    ensures Trim(s[..k]) == s[..k]
  {
  }

  lemma TrimNext(s: seq<State>, k: nat)
    requires 0 < k <= |s| && s[k - 1].freq == 0
    ensures Trim(s[..k]) == Trim(s[..k - 1])
  {
    assert s[..k][..k - 1] == s[..k - 1];
  }

  lemma SortDescOne(s: seq<State>)
    requires 1 <= |s|
    ensures SortDesc(s[..1]) == [s[0]]
  {
    assert s[..1][..0] == [];
  }

  lemma SumFreqPrefixes(s: seq<State>, i: nat)
    requires i < |s|
    ensures SumFreq(s[..i + 1]) == SumFreq(s[..i]) + s[i].freq <= SumFreq(s)
  {
    SumFreqAt(s, i);
    SumFreqPrefix(s, i + 1, |s|);
    assert s[..|s|] == s;
  }

  lemma SortDescNext(s: seq<State>, i: nat)
    requires i < |s|
    ensures SortDesc(s[..i + 1]) == InsertDesc(SortDesc(s[..i]), s[i])
  {
    assert s[..i + 1][..i] == s[..i];
  }
}
