/** What one symbol does to the frequencies of all contexts of the tree. */
module TreeLearning {
  import opened Options
  import opened Words
  import opened PpmdContext
  import opened SymbolSpec
  import opened FrequencySpec
  import opened FrequencyLaws
  import opened AdaptiveModel
  import opened ModelTables
  import opened ContextTree
  import L = LearningLaws
  import T = ContextTreeLaws

  // ---------- contexts under the changes of links ----------

  ghost predicate SameNode(a: Node, b: Node) {
    b.ctx == a.ctx && b.suffix == a.suffix
  }

  /** Old contexts are as they were; new ones have the one state `one`, each above the one before, the first above `base`. */
  ghost predicate Grew(a: seq<Node>, b: seq<Node>, base: nat, one: State) {
    && |a| <= |b| && (forall i :: 0 <= i < |a| ==> SameNode(a[i], b[i]))
    && NewOnes(|a|, b, base, one)
  }

  ghost predicate NewOnes(from: nat, nodes: seq<Node>, base: nat, one: State) {
    forall i :: from <= i < |nodes| ==>
      nodes[i].ctx == Context([one], 0) && nodes[i].suffix == Some(if i == from then base else i - 1)
  }

  lemma {:induction false} GrowGrew(nodes: seq<Node>, ps: seq<nat>, base: nat, x: int, one: State, succ: Succ)
    ensures Grew(nodes, Grow(nodes, ps, base, x, one, succ).0, base, one)
    decreases |ps|
  {
    if ps != [] {
      var child := Node(Context([one], 0), map[one.symbol as int := succ], Some(base));
      var next := SetSucc(nodes, ps[|ps| - 1], x, Child(|nodes|)) + [child];
      GrowGrew(next, ps[..|ps| - 1], |nodes|, x, one, succ);
      assert Grow(nodes, ps, base, x, one, succ) == Grow(next, ps[..|ps| - 1], |nodes|, x, one, succ);
      hide Grow;
      GrewOn(nodes, next, Grow(next, ps[..|ps| - 1], |nodes|, x, one, succ).0, base, one);
    }
  }

  lemma GrewOn(nodes: seq<Node>, next: seq<Node>, n: seq<Node>, base: nat, one: State)
    requires |next| == |nodes| + 1 && Grew(next, n, |nodes|, one)
    requires forall i :: 0 <= i < |nodes| ==> SameNode(nodes[i], next[i])
    requires next[|nodes|].ctx == Context([one], 0) && next[|nodes|].suffix == Some(base)
    ensures Grew(nodes, n, base, one)
  {
  }

  lemma NothingGrew(nodes: seq<Node>, base: nat, one: State)
    ensures Grew(nodes, nodes, base, one)
  {
  }

  /** New contexts take the frequency of their one state from the first one's suffix. */
  ghost predicate FromBelow(from: seq<Node>, n: seq<Node>, base: nat, one: State) {
    |from| < |n| ==>
      base < |from| && from[base].ctx.states != [] && one.freq == UpFreq(from[base].ctx, one.symbol)
  }

  lemma CreatesGrew(nodes: seq<Node>, text: seq<Byte>, c: nat, x: int, r: nat, skip: bool) returns (base: nat, one: State)
    requires c < |nodes|
    ensures var g := CreateSuccessors(nodes, text, c, x, r, skip);
            g.Some? ==> Grew(nodes, g.value.0, base, one) && FromBelow(nodes, g.value.0, base, one)
  {
    hide UpFreq;
    hide Grew;
    base, one := 0, State(0, 0);
    var (more, below) := Gather(nodes, c, x, r);
    hide Gather;
    var ps := if skip then more else [c] + more;
    if below.Some? && below.value < |nodes| {
      if ps == [] {
        NothingGrew(nodes, base, one);
      } else if r < |text| && nodes[below.value].ctx.states != [] {
        base, one := below.value, State(text[r], UpFreq(nodes[below.value].ctx, text[r]));
        GrowGrew(nodes, ps, base, x, one, Raw(r + 1));
      }
    }
  }

  lemma SetGrew(a: seq<Node>, b: seq<Node>, i: nat, x: int, s: Succ, base: nat, one: State)
    requires Grew(a, b, base, one)
    ensures Grew(a, SetSucc(b, i, x, s), base, one)
  {
  }

  /** The middle of UpdateModel leaves the old contexts alone. */
  lemma AdvanceGrew(nodes: seq<Node>, text: seq<Byte>, v: nat, x: Byte, k: nat, orderFall: nat)
    returns (base: nat, one: State)
    requires v < |nodes| && Advance(nodes, text, v, x, k, orderFall).Some?
    ensures var n := Advance(nodes, text, v, x, k, orderFall).value.nodes;
            Grew(nodes, n, base, one) && FromBelow(nodes, n, base, one)
  {
    hide Grew;
    hide CreateSuccessors;
    base, one := 0, State(0, 0);
    NothingGrew(nodes, 0, one);
    var s := SuccOf(nodes, v, x);
    if s.Raw? {
      base, one := CreatesGrew(nodes, if orderFall == 0 then text else text + [x], v, x, s.at, orderFall == 0);
      var g := CreateSuccessors(nodes, if orderFall == 0 then text else text + [x], v, x, s.at, orderFall == 0);
      if orderFall == 0 && g.Some? {
        SetGrew(nodes, g.value.0, v, x, Child(g.value.1), base, one);
      }
    } else if s.Unset? && orderFall != 0 {
      SetGrew(nodes, nodes, v, x, Raw(|text + [x]|), base, one);
    }
  }

  lemma {:induction false} SetAllSame(nodes: seq<Node>, path: seq<nat>, x: int, s: Succ)
    ensures forall i :: 0 <= i < |nodes| ==> SameNode(nodes[i], SetAll(nodes, path, x, s)[i])
    decreases |path|
  {
    if path != [] {
      var next := SetSucc(nodes, path[0], x, s);
      SetAllSame(next, path[1..], x, s);
      assert forall i :: 0 <= i < |nodes| ==> SameNode(nodes[i], next[i]);
    }
  }

  // ---------- one update ----------

  /** The contexts of a path are those of `chain`, the other old ones as they were. */
  ghost predicate Along(nodes: seq<Node>, path: seq<nat>, chain: seq<Context>, n: seq<Node>) {
    && |nodes| <= |n| && |chain| == |path|
    && (forall j :: 0 <= j < |path| ==> path[j] < |n| && n[path[j]].ctx == chain[j])
    && forall i :: 0 <= i < |nodes| && i !in path ==> n[i].ctx == nodes[i].ctx
  }

  lemma WriteAlong(nodes: seq<Node>, n: seq<Node>, path: seq<nat>, chain: seq<Context>, base: nat, one: State,
                   some: seq<nat>, x: int, s: Succ)
    requires Grew(nodes, n, base, one) && T.Apart(path, |nodes|) && |chain| == |path|
    ensures var r := SetAll(Write(n, path, chain), some, x, s);
            Along(nodes, path, chain, r) && NewOnes(|nodes|, r, base, one) && |r| == |n|
  {
    T.WriteIs(n, path, chain);
    var w := Write(n, path, chain);
    forall i | 0 <= i < |n| ensures w[i].suffix == n[i].suffix && (i !in path ==> w[i] == n[i]) {
      if i in path {
        var j :| 0 <= j < |path| && path[j] == i;
      }
    }
    hide Write;
    SetAllSame(w, some, x, s);
    var r := SetAll(w, some, x, s);
    hide SetAll;
    forall i | 0 <= i < |w| ensures SameNode(w[i], r[i]) {
    }
  }

  lemma TwiceAlong(nodes: seq<Node>, path: seq<nat>, first: seq<Context>, chain: seq<Context>, n: seq<Node>)
    requires T.Apart(path, |nodes|) && |first| == |path| && Along(Write(nodes, path, first), path, chain, n)
    ensures Along(nodes, path, chain, n)
  {
    T.WriteIs(nodes, path, first);
    hide Write;
  }

  /** UpdateModel writes what the chain learns, and nothing else but new contexts. */
  lemma UpdateAlong<T>(t: Tree<T>, k: nat, at: nat) returns (base: nat, one: State)
    requires T.FitAt(t, k, at)
    requires Pointed(t, k, at) ==>
               var x := Chain(t.nodes, t.cur)[k].states[at].symbol as int;
               t.side.orderFall == 0 ==> !SuccOf(t.nodes, Path(t.nodes, t.cur)[k], x).Child?
    ensures Pointed(t, k, at)
    ensures var n := UpdateModel(t, k, at, false);
            && Along(t.nodes, Path(t.nodes, t.cur), Spread(Chain(t.nodes, t.cur), k, at, t.side), n.nodes)
            && NewOnes(|t.nodes|, n.nodes, base, one)
            && FromBelow(T.BumpedScene(t, k, at).nodes, n.nodes, base, one)
            && (exists orderFall: nat :: n.side == t.side.(orderFall := orderFall)) && n.memory == t.memory
  {
    hide Symbols;
    hide Spread;
    hide SuffixBumped;
    hide Advance;
    hide T.ChainKeeps;
    hide T.ChainLearns;
    hide T.Sane;
    hide T.Linked;
    hide UsableSide;
    hide StartTree;
    hide Depth;
    hide Write;
    hide SetAll;
    hide KeptChain;
    hide Path;
    hide Chain;
    hide T.Called;
    hide T.Arrives;
    hide Grew;
    hide NewOnes;
    hide FromBelow;
    hide Along;
    T.FitAtFacts(t, k, at);
    var chain, path := Chain(t.nodes, t.cur), Path(t.nodes, t.cur);
    var x := chain[k].states[at].symbol;
    T.BumpedChain(chain, k, at);
    var bumped := SuffixBumped(chain, k, chain[k].states[at]);
    T.CalledAfter(t, k, at, bumped);
    T.SpreadLearns(chain, k, at, t.side);
    var w := T.SceneOf(t).(nodes := Write(t.nodes, path, bumped));
    T.AdvanceArrives(w, k, x, t.side.orderFall, Spread(chain, k, at, t.side));
    base, one := AdvanceGrew(w.nodes, t.text, path[k], x, k, t.side.orderFall);
    var turn := Advance(w.nodes, t.text, path[k], x, k, t.side.orderFall).value;
    T.SaneLinked(T.SceneOf(t));
    assert T.Apart(path, |t.nodes|) by { T.PathApart(t.nodes, t.cur); }
    WriteAlong(w.nodes, turn.nodes, path, Spread(chain, k, at, t.side), base, one, path[..k], x, turn.passed);
    var n := UpdateModel(t, k, at, false);
    TwiceAlong(t.nodes, path, bumped, Spread(chain, k, at, t.side), n.nodes);
    OnesBelow(w.nodes, turn.nodes, n.nodes, base, one);
  }

  lemma OnesBelow(from: seq<Node>, n: seq<Node>, m: seq<Node>, base: nat, one: State)
    requires FromBelow(from, n, base, one) && |m| == |n|
    ensures FromBelow(from, m, base, one)
  {
    hide UpFreq;
  }

  // ---------- one symbol ----------

  /** The context a symbol was found in: a single state gains one up to 128, and the other updates have their laws. */
  ghost predicate LearnsThere(c: Context, x: Byte, how: How, orderFall: nat, now: Context) {
    if how == Binary then
      && now.summFreq == c.summFreq && SamePlaces(c.states, now.states)
      && Favours(c.states, x, if FreqOf(c.states, x) < 128 then 1 else 0, now.states)
    else Learned(c, x, orderFall, now)
  }

  /** The suffix of that context. */
  ghost predicate TakesNote(c: Context, x: Byte, now: Context) {
    var one := |c.states| == 1;
    var more := if FreqOf(c.states, x) < (if one then 32 else 115) then if one then 1 else 2 else 0;
    && Favours(c.states, x, more, now.states) && now.summFreq == c.summFreq + (if one then 0 else more)
    && exists at: nat :: at < |c.states| && c.states[at].symbol == x && SuffixPlaced(c.states, at, now.states)
  }

  /** A context passed on the way learns the symbol, with the share it has where it was found. */
  ghost predicate TakesUp(c: Context, x: Byte, there: Context, initEsc: nat, now: Context) {
    exists rest: nat ::
      && rest + |there.states| + FreqOf(there.states, x) == there.summFreq + 1
      && Appends(c, x, FreqOf(there.states, x), rest, |there.states|, initEsc, now)
  }

  /** All contexts of a chain after `x` was found in the `k`-th; `straight` when the next context was there already. */
  ghost predicate Taught(was: seq<Context>, k: nat, x: Byte, how: How, s: Side, straight: bool, now: seq<Context>) {
    && k < |was| == |now| && (straight ==> k == 0)
    && LearnsThere(was[k], x, how, s.orderFall, now[k])
    && (forall j :: 0 <= j < k ==> TakesUp(was[j], x, now[k], s.initEsc, now[j]))
    && (k + 1 < |was| ==>
          if straight || 31 <= FreqOf(now[k].states, x) then now[k + 1] == was[k + 1]
          else TakesNote(was[k + 1], x, now[k + 1]))
    && forall j :: k + 1 < j < |was| ==> now[j] == was[j]
  }

  lemma ThereLearns(c: Context, k: nat, x: Byte, how: How, orderFall: nat)
    requires KeptContext(c) && WayFits(c, k, x, how)
    ensures var r := Updated(c, IndexOf(c.states, x), how, orderFall);
            LearnsThere(c, x, how, orderFall, r.0) && (|r.0.states| == 1 && how != Binary ==> orderFall == 0)
  {
    hide KeptContext;
    hide Gained;
    hide HalvedAll;
    hide Placed;
    if how == Binary {
      L.BinaryLearns(c, orderFall);
      assert c.states[0].symbol == x && FreqOf(c.states, x) == c.states[0].freq by {
        FreqAlone(c.states);
      }
    } else {
      L.UpdatedLearns(c, k, x, how, orderFall);
      if FreqOf(c.states, x) + 4 <= 124 {
        SizeKept(c, k, x, how, orderFall);
      }
    }
  }

  lemma FreqAlone(s: seq<State>)
    requires |s| == 1
    ensures FreqOf(s, s[0].symbol) == s[0].freq
  {
    assert s[..0] == [];
  }

  lemma SizeKept(c: Context, k: nat, x: Byte, how: How, orderFall: nat)
    requires KeptContext(c) && WayFits(c, k, x, how) && how != Binary
    requires FreqOf(c.states, x) + 4 <= 124
    ensures 1 < |Updated(c, IndexOf(c.states, x), how, orderFall).0.states|
  {
    FreqAt(c.states, IndexOf(c.states, x));
  }

  lemma SuffixNotes(c: Context, x: Byte)
    requires KeptContext(c) && x as int in Symbols(c.states)
    ensures TakesNote(c, x, AfterSuffix(c, x))
  {
    hide AfterSuffix;
    hide Favours;
    hide SuffixPlaced;
    hide KeptContext;
    hide Symbols;
    var at := SuffixLearns(c, x);
  }

  lemma NextKnows(chain: seq<Context>, k: nat, at: nat)
    requires KeptChain(chain) && k < |chain| && at < |chain[k].states|
    ensures FreqOf(chain[k].states, chain[k].states[at].symbol) == chain[k].states[at].freq
    ensures k + 1 < |chain| ==>
              KeptContext(chain[k + 1]) && chain[k].states[at].symbol as int in Symbols(chain[k + 1].states)
  {
    T.InSymbols(chain[k].states, at);
    FreqAt(chain[k].states, at);
    hide Symbols;
  }

  /** What UpdateModel spreads, as seen from before the update. */
  lemma SpreadTaught(was: seq<Context>, k: nat, x: Byte, how: How, s: Side, at: nat, side: Side)
    requires KeptChain(was) && k < |was| && WayFits(was[k], k, x, how) && side.orderFall == s.orderFall
    requires side.initEsc == s.initEsc && (k > 0 ==> s.orderFall != 0)
    requires var c := Updated(was[k], IndexOf(was[k].states, x), how, s.orderFall).0;
             && KeptChain(was[k := c]) && at < |c.states| && c.states[at].symbol == x
             && Spreadable(was[k := c], k, at)
    ensures var chain := was[k := Updated(was[k], IndexOf(was[k].states, x), how, s.orderFall).0];
            && Taught(was, k, x, how, s, false, Spread(chain, k, at, side))
            && (k == 0 ==> Taught(was, k, x, how, s, true, chain))
  {
    hide KeptContext;
    hide Symbols;
    hide Appends;
    hide LearnsThere;
    hide TakesNote;
    hide AfterSuffix;
    hide Append;
    hide Spread;
    assert KeptContext(was[k]);
    ThereLearns(was[k], k, x, how, s.orderFall);
    var c := Updated(was[k], IndexOf(was[k].states, x), how, s.orderFall).0;
    hide Updated;
    var chain := was[k := c];
    NextKnows(chain, k, at);
    if k + 1 < |was| {
      SuffixNotes(chain[k + 1], x);
    }
    hide KeptChain;
    var r := Spread(chain, k, at, side);
    if k == 0 {
      SpreadFirst(chain, at, side);
    } else {
      var rest := L.SpreadLearns(chain, k, at, side);
      forall j | 0 <= j < k ensures TakesUp(was[j], x, r[k], s.initEsc, r[j]) {
        assert rest + |r[k].states| + FreqOf(r[k].states, x) == r[k].summFreq + 1;
      }
    }
  }

  lemma SpreadFirst(chain: seq<Context>, at: nat, side: Side)
    requires Spreadable(chain, 0, at)
    ensures Spread(chain, 0, at, side) == SuffixBumped(chain, 0, chain[0].states[at])
  {
    hide AfterSuffix;
    hide SuffixBumped;
  }

  /** Nothing but frequencies changes when a successor at full order is a context already. */
  predicate Straight<T>(t: Tree<T>, r: Result)
    requires r.Found?
  {
    r.side.orderFall == 0 && SuccOf(t.nodes, t.cur, r.symbol).Child?
  }

  lemma WrittenAlong(nodes: seq<Node>, path: seq<nat>, chain: seq<Context>)
    requires |chain| == |path| && T.Apart(path, |nodes|)
    ensures Along(nodes, path, chain, Write(nodes, path, chain))
  {
    T.WriteIs(nodes, path, chain);
    hide Write;
  }

  /** Which way a step goes. */
  lemma StepWay<T>(mem: Memory<T>, t: Tree<T>, r: Result)
    requires T.FoundIn(t, r)
    ensures Updatable(t, r)
    ensures var touched, at, k := Touch(mem, t, r), Touched(t, r).1, r.level;
            && T.FitAt(touched, k, at) && Pointed(touched, k, at) && Chain(touched.nodes, touched.cur) == Touched(t, r).0
            && Path(touched.nodes, touched.cur) == Path(t.nodes, t.cur) && touched.cur == t.cur
            && T.SameLinks(t.nodes, touched.nodes)
            && at < |Touched(t, r).0[k].states| && Touched(t, r).0[k].states[at].symbol == r.symbol
            && (Straight(t, r) ==> k == 0)
            && (!Straight(t, r) && touched.side.orderFall == 0 ==>
                  !SuccOf(touched.nodes, Path(t.nodes, t.cur)[k], r.symbol).Child?)
            && Step(mem, t, r) == if Straight(t, r) then touched.(cur := SuccOf(t.nodes, t.cur, r.symbol).id)
                                  else UpdateModel(touched, k, at, mem.full(t, r))
  {
    hide T.Sane;
    hide Sensible;
    hide T.FitAt;
    hide T.FoundIn;
    hide Learnable;
    hide Touched;
    hide UpdateModel;
    hide UsableSide;
    hide Path;
    hide Chain;
    hide T.SameLinks;
    hide SuccOf;
    T.TouchFits(mem, t, r);
    var touched, at := Touch(mem, t, r), Touched(t, r).1;
    T.FitAtFacts(touched, r.level, at);
    T.FoundThere(t, r);
    T.SideFits(t, r);
    T.LinksSame(t.nodes, touched.nodes, t.cur, r.symbol);
    T.PathSame(t.nodes, touched.nodes, t.cur);
  }

  lemma StepTaught<T>(t: Tree<T>, r: Result)
    requires T.FoundIn(t, r) && Updatable(t, r)
    requires var (chain, at) := Touched(t, r);
             && KeptChain(chain) && Spreadable(chain, r.level, at) && chain[r.level].states[at].symbol == r.symbol
    ensures var was, (chain, at) := Chain(t.nodes, t.cur), Touched(t, r);
            && Taught(was, r.level, r.symbol, r.how, r.side, false, Spread(chain, r.level, at, SideAfter(t, r)))
            && (r.level == 0 ==> Taught(was, r.level, r.symbol, r.how, r.side, true, chain))
  {
    hide T.Sane;
    hide Symbols;
    hide KeptContext;
    hide Updated;
    hide Taught;
    hide Spread;
    hide SideAfter;
    hide KeptChain;
    hide Path;
    hide Chain;
    T.FoundThere(t, r);
    T.SideFits(t, r);
    hide UsableSide;
    SpreadTaught(Chain(t.nodes, t.cur), r.level, r.symbol, r.how, r.side, Touched(t, r).1, SideAfter(t, r));
  }

  // ---------- contexts along the path, and the others ----------

  /** A context as it was before the symbol went to those passed on the way. */
  function Earlier(was: seq<Node>, now: seq<Node>, passed: seq<nat>, i: nat): Context
    requires i < |was| && i < |now|
  {
    if i in passed then was[i].ctx else now[i].ctx
  }

  /** The first new context takes the frequency of its state from its suffix, and hands it on to the others. */
  ghost predicate Starts(was: seq<Node>, now: seq<Node>, passed: seq<nat>, base: nat, one: State) {
    && |was| <= |now| && NewOnes(|was|, now, base, one)
    && (|was| < |now| ==>
          && base < |was| && Earlier(was, now, passed, base).states != []
          && one.freq == UpFreq(Earlier(was, now, passed, base), one.symbol))
  }

  lemma AlongIs(nodes: seq<Node>, path: seq<nat>, chain: seq<Context>, n: seq<Node>)
    requires Along(nodes, path, chain, n)
    ensures (forall j :: 0 <= j < |path| ==> path[j] < |n|) && Contexts(n, path) == chain && |chain| == |path|
  {
  }

  /** Before the append loop, contexts on the path were written once, or twice with the same. */
  lemma EarlierIs(was: seq<Node>, path: seq<nat>, chain: seq<Context>, k: nat, at: nat, side: Side, now: seq<Node>,
                  before: seq<Context>, i: nat)
    requires T.Apart(path, |was|) && |chain| == |path| == |before| && i < |was| && Spreadable(chain, k, at)
    requires Along(was, path, Spread(chain, k, at, side), now)
    requires forall j :: 0 <= j < |path| ==> was[path[j]].ctx == before[j]
    requires forall j :: 0 <= j < k ==> chain[j] == before[j]
    ensures var bumped := Write(Write(was, path, chain), path, SuffixBumped(chain, k, chain[k].states[at]));
            bumped[i].ctx == Earlier(was, now, path[..k], i)
  {
    hide AfterSuffix;
    hide Append;
    var bumped := SuffixBumped(chain, k, chain[k].states[at]);
    T.WriteIs(was, path, chain);
    var first := Write(was, path, chain);
    T.WriteIs(first, path, bumped);
    hide Write;
    if i in path {
      var j :| 0 <= j < |path| && path[j] == i;
      if j < k {
        assert path[..k][j] == i;
      } else {
        PassedOnly(path, |was|, k, j);
      }
    }
  }

  lemma PassedOnly(path: seq<nat>, n: nat, k: nat, j: nat)
    requires T.Apart(path, n) && k <= j < |path|
    ensures path[j] !in path[..k]
  {
  }

  // ---------- the whole step ----------

  /** What a step of `r` leaves of the contexts `was`, with `path` those from MinContext up. */
  ghost predicate Lesson(was: seq<Node>, path: seq<nat>, r: Result, straight: bool, now: seq<Node>, base: nat, one: State)
    requires r.Found? && 0 <= r.symbol < 256 && forall j :: 0 <= j < |path| ==> path[j] < |was|
  {
    && |was| <= |now| && r.level < |path|
    && Taught(Contexts(was, path), r.level, r.symbol, r.how, r.side, straight, Contexts(now, path))
    && (forall i :: 0 <= i < |was| && i !in path ==> now[i].ctx == was[i].ctx)
    && Starts(was, now, path[..r.level], base, one) && (straight ==> |now| == |was|)
  }

  lemma StraightLesson<T>(mem: Memory<T>, t: Tree<T>, r: Result)
    requires T.FoundIn(t, r) && Updatable(t, r) && Straight(t, r) && r.level == 0 < |Path(t.nodes, t.cur)|
    requires Taught(Chain(t.nodes, t.cur), 0, r.symbol, r.how, r.side, true, Touched(t, r).0)
    ensures Lesson(t.nodes, Path(t.nodes, t.cur), r, true, Touch(mem, t, r).nodes, 0, State(0, 0))
  {
    hide Taught;
    hide T.Sane;
    hide T.Linked;
    hide T.FitAt;
    hide Sensible;
    hide Path;
    hide Touched;
    hide Write;
    hide UsableSide;
    T.SaneLinked(T.SceneOf(t));
    T.PathApart(t.nodes, t.cur);
    var path, n := Path(t.nodes, t.cur), Touch(mem, t, r).nodes;
    WrittenAlong(t.nodes, path, Touched(t, r).0);
    AlongIs(t.nodes, path, Touched(t, r).0, n);
  }

  lemma UpdateLesson(was: seq<Node>, path: seq<nat>, r: Result, chain: seq<Context>, at: nat, side: Side, n: seq<Node>,
                     base: nat, one: State)
    requires r.Found? && 0 <= r.symbol < 256 && r.level < |path| == |chain| && T.Apart(path, |was|)
    requires Spreadable(chain, r.level, at) && forall j :: 0 <= j < r.level ==> chain[j] == was[path[j]].ctx
    requires Taught(Contexts(was, path), r.level, r.symbol, r.how, r.side, false, Spread(chain, r.level, at, side))
    requires Along(Write(was, path, chain), path, Spread(chain, r.level, at, side), n) && NewOnes(|was|, n, base, one)
    requires var bumped := SuffixBumped(chain, r.level, chain[r.level].states[at]);
             FromBelow(Write(Write(was, path, chain), path, bumped), n, base, one)
    ensures Lesson(was, path, r, false, n, base, one)
  {
    hide Taught;
    hide Write;
    hide Spread;
    hide SuffixBumped;
    hide UpFreq;
    hide NewOnes;
    var spread := Spread(chain, r.level, at, side);
    TwiceAlong(was, path, chain, spread, n);
    AlongIs(was, path, spread, n);
    if |was| < |n| {
      EarlierIs(was, path, chain, r.level, at, side, n, Contexts(was, path), base);
    }
  }

  lemma AfterIs<T>(t: Tree<T>, r: Result)
    requires Updatable(t, r)
    ensures forall s: Side ::
              s == SideAfter(t, r).(orderFall := s.orderFall) ==>
                Noticed(r, Chain(t.nodes, t.cur)[r.level], StartRun(t.maxOrder), s)
  {
    hide Noted;
  }

  lemma TouchedBelow<T>(t: Tree<T>, r: Result)
    requires T.FoundIn(t, r) && Updatable(t, r)
    ensures T.Apart(Path(t.nodes, t.cur), |t.nodes|)
    ensures Chain(t.nodes, t.cur) == Contexts(t.nodes, Path(t.nodes, t.cur))
    ensures forall j :: 0 <= j < r.level ==> Touched(t, r).0[j] == t.nodes[Path(t.nodes, t.cur)[j]].ctx
  {
    hide Updated;
    hide Sensible;
    hide T.Sane;
    T.SaneLinked(T.SceneOf(t));
    T.PathApart(t.nodes, t.cur);
  }

  /** The side state notes how the symbol was found, and which it was; its order is another matter. */
  ghost predicate Noticed(r: Result, c: Context, initRL: int, now: Side)
    requires r.Found? && 0 <= r.symbol < 256
  {
    now == Noted(r.side, r.how, c, initRL).(foundSymbol := r.symbol, orderFall := now.orderFall)
  }

  /**
    What a step of the model leaves, memory permitting: every context on the path from MinContext up is taught, the
    others are as they were, and new ones take their frequency from below.
   */
  lemma StepLearns<T>(mem: Memory<T>, t: Tree<T>, r: Result) returns (base: nat, one: State)
    requires T.FoundIn(t, r) && !mem.full(t, r)
    ensures var n := Step(mem, t, r);
            && Updatable(t, r) && |Chain(t.nodes, t.cur)| == |Path(t.nodes, t.cur)|
            && Lesson(t.nodes, Path(t.nodes, t.cur), r, Straight(t, r), n.nodes, base, one)
            && Noticed(r, Chain(t.nodes, t.cur)[r.level], StartRun(t.maxOrder), n.side) && n.memory == mem.next(t, r)
            && (Straight(t, r) ==> n.side.orderFall == 0)
  {
    hide T.Sane;
    hide T.FoundIn;
    hide Learnable;
    hide UpdateModel;
    hide UsableSide;
    hide Path;
    hide Chain;
    hide T.SameLinks;
    hide SuccOf;
    hide Step;
    hide Taught;
    hide Lesson;
    hide Along;
    hide Write;
    hide Touched;
    hide SideAfter;
    hide KeptChain;
    hide SuffixBumped;
    hide NewOnes;
    hide FromBelow;
    hide T.Linked;
    hide T.Apart;
    StepWay(mem, t, r);
    var touched, at, path := Touch(mem, t, r), Touched(t, r).1, Path(t.nodes, t.cur);
    T.FitAtFacts(touched, r.level, at);
    hide T.FitAt;
    StepTaught(t, r);
    T.FoundThere(t, r);
    T.SideFits(t, r);
    AfterIs(t, r);
    if Straight(t, r) {
      StraightLesson(mem, t, r);
      base, one := 0, State(0, 0);
    } else {
      base, one := UpdateAlong(touched, r.level, at);
      TouchedBelow(t, r);
      UpdateLesson(t.nodes, path, r, Touched(t, r).0, at, SideAfter(t, r), Step(mem, t, r).nodes, base, one);
    }
  }
}
