/** What every update keeps of the context tree, so that the codec with its successors gives every message back. */
module ContextTreeLaws {
  import opened Options
  import opened Words
  import opened PpmdContext
  import opened SymbolSpec
  import opened FrequencySpec
  import opened AdaptiveModel
  import opened ModelTables
  import opened SymbolRoundTrip
  import opened ContextTree
  import RangeSpec
  import RangeDecoder

  // ---------- suffixes ----------

  ghost predicate LinkOk(nodes: seq<Node>, i: nat) {
    i < |nodes| ==>
      if i == 0 then nodes[i].suffix.None? else nodes[i].suffix.Some? && nodes[i].suffix.value < i
  }

  /** Every context but the root has an older suffix. */
  ghost predicate Linked(nodes: seq<Node>) {
    nodes != [] && forall i :: LinkOk(nodes, i)
  }

  ghost predicate SameSuffix(a: seq<Node>, b: seq<Node>, i: nat) {
    i < |a| ==> i < |b| && b[i].suffix == a[i].suffix
  }

  ghost predicate SameSuffixes(a: seq<Node>, b: seq<Node>) {
    |a| <= |b| && forall i :: SameSuffix(a, b, i)
  }

  lemma {:induction false} PathSame(a: seq<Node>, b: seq<Node>, i: nat)
    requires SameSuffixes(a, b) && i < |a|
    ensures Path(a, i) == Path(b, i)
    decreases i
  {
    assert SameSuffix(a, b, i);
    var s := a[i].suffix;
    if s.Some? && s.value < i {
      PathSame(a, b, s.value);
    }
  }

  lemma {:induction false} PathAt(nodes: seq<Node>, i: nat, j: nat)
    requires Linked(nodes) && i < |nodes| && j < |Path(nodes, i)|
    ensures var p := Path(nodes, i);
            && Path(nodes, p[j]) == p[j..] && Depth(nodes, p[j]) == Depth(nodes, i) - j
            && nodes[p[j]].suffix == (if j + 1 < |p| then Some(p[j + 1]) else None)
            && (j + 1 == |p| <==> p[j] == 0)
    decreases i
  {
    assert LinkOk(nodes, i);
    var p := Path(nodes, i);
    if i == 0 {
    } else {
      var s := nodes[i].suffix.value;
      assert p == [i] + Path(nodes, s);
      if j > 0 {
        PathAt(nodes, s, j - 1);
        assert p[j..] == Path(nodes, s)[j - 1..];
      } else {
        PathAt(nodes, s, |Path(nodes, s)| - 1);
      }
    }
  }

  lemma PathDistinct(nodes: seq<Node>, i: nat, j: nat, k: nat)
    requires Linked(nodes) && i < |nodes| && j < |Path(nodes, i)| && k < |Path(nodes, i)| && j != k
    ensures Path(nodes, i)[j] != Path(nodes, i)[k]
  {
    PathAt(nodes, i, j);
    PathAt(nodes, i, k);
  }

  lemma DepthStep(nodes: seq<Node>, i: nat)
    requires Linked(nodes) && i < |nodes|
    ensures if i == 0 then Depth(nodes, i) == 0 && nodes[i].suffix.None?
            else nodes[i].suffix.Some? && nodes[i].suffix.value < i && Depth(nodes, i) == 1 + Depth(nodes, nodes[i].suffix.value)
  {
    assert LinkOk(nodes, i);
  }

  // ---------- what the text says ----------

  /** The tree without its frequencies: contexts, text, MinContext, and the order. */
  datatype Scene = Scene(nodes: seq<Node>, text: seq<Byte>, cur: nat, max: nat)

  predicate Has(nodes: seq<Node>, i: nat, x: int) {
    i < |nodes| && x in Symbols(nodes[i].ctx.states)
  }

  /**
    Where `s` leads, the text goes on from `r`: it is this very place, or a context that knows the next symbol, and so
    on, up to a place not yet followed or to the end of the text, where MinContext is. At full order nothing is asked.
   */
  ghost predicate Continues(w: Scene, r: nat, s: Succ)
    decreases if r <= |w.text| then |w.text| - r else 0
  {
    || s == Raw(r)
    || (s.Child? && s.id < |w.nodes| &&
        (|| Depth(w.nodes, s.id) == w.max
         || (r < |w.text| && Has(w.nodes, s.id, w.text[r]) && Continues(w, r + 1, SuccOf(w.nodes, s.id, w.text[r])))
         || (r == |w.text| && s.id == w.cur)))
  }

  /** Where the suffix goes with the symbol; below the root everything leads to the root. */
  function Below(nodes: seq<Node>, i: nat, x: int): Succ
    requires i < |nodes|
  {
    if nodes[i].suffix.None? then Child(0) else SuccOf(nodes, nodes[i].suffix.value, x)
  }

  function Longer(d: nat, max: nat): nat {
    if d < max then d + 1 else max
  }

  ghost predicate SuccOk(w: Scene, i: nat, x: int) {
    Has(w.nodes, i, x) ==>
      match SuccOf(w.nodes, i, x)
      case Unset => i == 0
      case Child(id) => id < |w.nodes| && Depth(w.nodes, id) == Longer(Depth(w.nodes, i), w.max)
      case Raw(r) => r <= |w.text| && Continues(w, r, Below(w.nodes, i, x))
  }

  ghost predicate FitNode(nodes: seq<Node>, i: nat) {
    i < |nodes| ==>
      && KeptContext(nodes[i].ctx) && 1 <= |nodes[i].ctx.states|
      && (i > 0 && nodes[i].suffix.Some? && nodes[i].suffix.value < |nodes| ==>
            Symbols(nodes[i].ctx.states) <= Symbols(nodes[nodes[i].suffix.value].ctx.states))
  }

  ghost predicate FitNodes(nodes: seq<Node>) {
    nodes != [] && |nodes[0].ctx.states| == 256 && forall i :: FitNode(nodes, i)
  }

  ghost predicate DepthOk(w: Scene, i: nat) {
    i < |w.nodes| ==> Depth(w.nodes, i) <= w.max
  }

  ghost predicate Sane(w: Scene) {
    && Linked(w.nodes) && FitNodes(w.nodes) && 0 < w.max && w.cur < |w.nodes|
    && (forall i :: DepthOk(w, i)) && forall i, x :: SuccOk(w, i, x)
  }

  // ---------- going on ----------

  /** A place in the text became a context. */
  ghost predicate Upgraded(v: Scene, r: nat, s: Succ) {
    s.Child? && s.id < |v.nodes| &&
    (|| Depth(v.nodes, s.id) == v.max
     || (r < |v.text| && Has(v.nodes, s.id, v.text[r]) && SuccOf(v.nodes, s.id, v.text[r]) == Raw(r + 1)))
  }

  ghost predicate SuccStep(w: Scene, v: Scene, i: nat, x: int) {
    Has(w.nodes, i, x) ==>
      var was, now := SuccOf(w.nodes, i, x), SuccOf(v.nodes, i, x);
      now == was || was.Unset? || (was.Raw? && Upgraded(v, was.at, now))
  }

  ghost predicate KnowsMore(w: Scene, v: Scene, i: nat) {
    i < |w.nodes| <= |v.nodes| && Depth(w.nodes, i) < w.max ==>
      Symbols(w.nodes[i].ctx.states) <= Symbols(v.nodes[i].ctx.states)
  }

  /** Below full order, MinContext still is where the text ends, or what it knew of the end goes on. */
  ghost predicate EndGoesOn(w: Scene, v: Scene) {
    w.cur < |w.nodes| && Depth(w.nodes, w.cur) < w.max && !(v.text == w.text && v.cur == w.cur) ==>
      && |v.text| == |w.text| + 1 && Has(v.nodes, w.cur, v.text[|w.text|])
      && Continues(v, |v.text|, SuccOf(v.nodes, w.cur, v.text[|w.text|]))
  }

  ghost predicate Onward(w: Scene, v: Scene) {
    && SameSuffixes(w.nodes, v.nodes) && v.max == w.max && w.text <= v.text && EndGoesOn(w, v)
    && (forall i :: KnowsMore(w, v, i)) && forall i, x :: SuccStep(w, v, i, x)
  }

  lemma {:induction false} Stays(w: Scene, v: Scene, r: nat, s: Succ)
    requires Onward(w, v) && Continues(w, r, s) && r <= |w.text| && forall i :: DepthOk(w, i)
    ensures Continues(v, r, s)
    decreases |w.text| - r
  {
    hide Symbols;
    hide Depth;
    if s != Raw(r) {
      DepthSame(w, v, s.id);
      assert DepthOk(w, s.id);
      if Depth(w.nodes, s.id) != w.max {
        if r == |w.text| {
          assert EndGoesOn(w, v);
        } else {
          var t, t' := SuccOf(w.nodes, s.id, w.text[r]), SuccOf(v.nodes, s.id, w.text[r]);
          assert SuccStep(w, v, s.id, w.text[r] as int) && KnowsMore(w, v, s.id);
          assert v.text[r] == w.text[r];
          Stays(w, v, r + 1, t);
          if t' != t {
            UpgradedContinues(v, r + 1, t');
          }
        }
      }
    }
  }

  lemma UpgradedContinues(v: Scene, r: nat, s: Succ)
    requires Upgraded(v, r, s)
    ensures Continues(v, r, s)
  {
    hide Depth;
    hide Has;
    hide SuccOf;
    if r < |v.text| {
      assert Continues(v, r + 1, Raw(r + 1));
    }
  }

  lemma DepthSame(w: Scene, v: Scene, i: nat)
    requires SameSuffixes(w.nodes, v.nodes) && i < |w.nodes|
    ensures Depth(v.nodes, i) == Depth(w.nodes, i)
  {
    PathSame(w.nodes, v.nodes, i);
  }

  /** A successor that stays as it is stays right. */
  lemma OldSucc(w: Scene, v: Scene, i: nat, x: int)
    requires Sane(w) && Onward(w, v) && Has(w.nodes, i, x) && SuccOf(v.nodes, i, x) == SuccOf(w.nodes, i, x)
    ensures SuccOk(v, i, x)
  {
    hide Symbols;
    hide Depth;
    hide Continues;
    assert SuccOk(w, i, x) && SameSuffix(w.nodes, v.nodes, i) && LinkOk(w.nodes, i);
    DepthSame(w, v, i);
    match SuccOf(w.nodes, i, x)
    case Unset =>
    case Child(id) => DepthSame(w, v, id);
    case Raw(r) =>
      var was, now := Below(w.nodes, i, x), Below(v.nodes, i, x);
      Stays(w, v, r, was);
      if i > 0 {
        var up := w.nodes[i].suffix.value;
        assert FitNode(w.nodes, i) && Has(w.nodes, up, x) && SuccStep(w, v, up, x);
        if now != was {
          RawSame(w, r, was);
          UpgradedContinues(v, r, now);
        }
      }
  }

  lemma RawSame(w: Scene, r: nat, s: Succ)
    requires Continues(w, r, s)
    ensures !s.Unset? && (s.Raw? ==> s == Raw(r))
  {
    hide Depth;
    hide Has;
    hide SuccOf;
  }

  // ---------- writing contexts ----------

  ghost predicate Apart(path: seq<nat>, n: nat) {
    (forall j :: 0 <= j < |path| ==> path[j] < n) && forall i, j :: 0 <= i < j < |path| ==> path[i] != path[j]
  }

  lemma PathApart(nodes: seq<Node>, i: nat)
    requires Linked(nodes) && i < |nodes|
    ensures Apart(Path(nodes, i), |nodes|)
  {
    var p := Path(nodes, i);
    forall j, k | 0 <= j < k < |p| ensures p[j] != p[k] {
      PathDistinct(nodes, i, j, k);
    }
  }

  lemma {:induction false} WriteIs(nodes: seq<Node>, path: seq<nat>, chain: seq<Context>)
    requires |path| == |chain| && Apart(path, |nodes|)
    ensures forall j :: 0 <= j < |path| ==> Write(nodes, path, chain)[path[j]] == nodes[path[j]].(ctx := chain[j])
    ensures forall i :: 0 <= i < |nodes| && i !in path ==> Write(nodes, path, chain)[i] == nodes[i]
    decreases |path|
  {
    if path != [] {
      var first := nodes[path[0] := nodes[path[0]].(ctx := chain[0])];
      assert forall j :: 0 <= j < |path[1..]| ==> path[1..][j] == path[j + 1];
      WriteIs(first, path[1..], chain[1..]);
      var r := Write(nodes, path, chain);
      assert r == Write(first, path[1..], chain[1..]);
      forall j | 0 <= j < |path| ensures r[path[j]] == nodes[path[j]].(ctx := chain[j]) {
        if j > 0 {
          assert path[j] == path[1..][j - 1] && r[path[1..][j - 1]] == first[path[j]].(ctx := chain[1..][j - 1]);
        }
      }
    }
  }

  lemma {:induction false} SetAllIs(nodes: seq<Node>, path: seq<nat>, x: int, s: Succ)
    requires Apart(path, |nodes|)
    ensures forall j :: 0 <= j < |path| ==>
              SetAll(nodes, path, x, s)[path[j]] == nodes[path[j]].(succ := nodes[path[j]].succ[x := s])
    ensures forall i :: 0 <= i < |nodes| && i !in path ==> SetAll(nodes, path, x, s)[i] == nodes[i]
    decreases |path|
  {
    if path != [] {
      var first, rest := SetSucc(nodes, path[0], x, s), path[1..];
      RestApart(path, |nodes|);
      SetAllIs(first, rest, x, s);
      var r := SetAll(first, rest, x, s);
      assert SetAll(nodes, path, x, s) == r;
      hide SetAll;
      forall j | 0 <= j < |path| ensures r[path[j]] == nodes[path[j]].(succ := nodes[path[j]].succ[x := s]) {
        if j > 0 {
          assert r[rest[j - 1]] == first[rest[j - 1]].(succ := first[rest[j - 1]].succ[x := s]);
        }
      }
    }
  }

  lemma RestApart(path: seq<nat>, n: nat)
    requires Apart(path, n) && path != []
    ensures Apart(path[1..], n) && path[0] !in path[1..]
    ensures forall j :: 0 < j < |path| ==> path[1..][j - 1] == path[j] != path[0]
  {
  }

  // ---------- gathering and growing ----------

  ghost predicate SameLinks(a: seq<Node>, b: seq<Node>) {
    |a| == |b| && forall i :: 0 <= i < |a| ==> a[i].suffix == b[i].suffix && a[i].succ == b[i].succ
  }

  lemma {:induction false} GatherSame(a: seq<Node>, b: seq<Node>, c: nat, x: int, r: nat)
    requires SameLinks(a, b) && c < |a|
    ensures Gather(a, c, x, r) == Gather(b, c, x, r)
    decreases c
  {
    var s := a[c].suffix;
    if s.Some? && s.value < c {
      GatherSame(a, b, s.value, x, r);
    }
  }

  /** The search goes up to a context that the text goes on from, as many orders lower as there are places gathered. */
  lemma {:induction false} GatherIs(w: Scene, c: nat, x: int, r: nat)
    requires Sane(w) && Has(w.nodes, c, x) && SuccOf(w.nodes, c, x) == Raw(r)
    ensures var (ps, base) := Gather(w.nodes, c, x, r);
            && base.Some? && base.value < |w.nodes| && Depth(w.nodes, base.value) + |ps| == Depth(w.nodes, c)
            && Continues(w, r, Child(base.value)) && ps == Path(w.nodes, c)[1..1 + |ps|]
            && forall j :: 0 <= j < |ps| ==> Has(w.nodes, ps[j], x) && SuccOf(w.nodes, ps[j], x) == Raw(r)
    decreases c
  {
    hide Symbols;
    hide Continues;
    hide Sane;
    hide Has;
    hide Linked;
    SaneLinked(w);
    PlaceFacts(w, c, x, r);
    DepthStep(w.nodes, c);
    if c > 0 {
      var s := w.nodes[c].suffix.value;
      assert Path(w.nodes, c) == [c] + Path(w.nodes, s);
      if SuccOf(w.nodes, s, x) == Raw(r) {
        GatherIs(w, s, x, r);
        var (ps, base) := Gather(w.nodes, s, x, r);
        assert Path(w.nodes, c)[1..2 + |ps|] == [s] + ps;
      }
    }
  }

  /** What a place in the text says of the suffix: the same place, or a context of the next order. */
  lemma PlaceFacts(w: Scene, c: nat, x: int, r: nat)
    requires Sane(w) && Has(w.nodes, c, x) && SuccOf(w.nodes, c, x) == Raw(r)
    ensures Depth(w.nodes, c) <= w.max
    ensures c == 0 ==> Continues(w, r, Child(0)) && w.nodes[c].suffix.None?
    ensures c > 0 ==>
              && w.nodes[c].suffix.Some? && w.nodes[c].suffix.value < c && Has(w.nodes, w.nodes[c].suffix.value, x)
              && var s := SuccOf(w.nodes, w.nodes[c].suffix.value, x);
                 && Continues(w, r, s)
                 && (s == Raw(r) || (s.Child? && s.id < |w.nodes| && Depth(w.nodes, s.id) == Depth(w.nodes, c)))
  {
    hide Symbols;
    hide Continues;
    hide Path;
    hide KeptContext;
    SaneNode(w, c);
    SaneSucc(w, c, x);
    SaneLinked(w);
    DepthStep(w.nodes, c);
    if c > 0 {
      var s := w.nodes[c].suffix.value;
      SaneSucc(w, s, x);
      RawSame(w, r, SuccOf(w.nodes, s, x));
    }
  }

  lemma SaneSucc(w: Scene, i: nat, x: int)
    requires Sane(w)
    ensures SuccOk(w, i, x)
  {
    hide SuccOk;
    hide FitNodes;
    hide Depth;
  }

  function Kid(nodes: seq<Node>, ps: seq<nat>, j: nat): nat
    requires j < |ps|
  {
    |nodes| + |ps| - 1 - j
  }

  ghost predicate GrownNew(nodes: seq<Node>, n: seq<Node>, base: nat, one: State, succ: Succ, m: nat) {
    |nodes| + m < |n| ==>
      n[|nodes| + m] == Node(Context([one], 0), map[one.symbol as int := succ], Some(if m == 0 then base else |nodes| + m - 1))
  }

  ghost predicate GrownSame(nodes: seq<Node>, ps: seq<nat>, n: seq<Node>, i: nat) {
    i < |nodes| <= |n| && i !in ps ==> n[i] == nodes[i]
  }

  ghost predicate GrownKid(nodes: seq<Node>, ps: seq<nat>, x: int, n: seq<Node>, j: nat) {
    j < |ps| && |nodes| <= |n| ==>
      && ps[j] < |nodes|
      && n[ps[j]] == nodes[ps[j]].(succ := nodes[ps[j]].succ[x := Child(Kid(nodes, ps, j))])
  }

  ghost predicate Grown(nodes: seq<Node>, ps: seq<nat>, base: nat, x: int, one: State, succ: Succ, n: seq<Node>) {
    && |n| == |nodes| + |ps| && (forall i :: GrownSame(nodes, ps, n, i)) && (forall j :: GrownKid(nodes, ps, x, n, j))
    && forall m: nat :: GrownNew(nodes, n, base, one, succ, m)
  }

  lemma {:induction false} GrowIs(nodes: seq<Node>, ps: seq<nat>, base: nat, x: int, one: State, succ: Succ)
    requires Apart(ps, |nodes|)
    ensures var (n, top) := Grow(nodes, ps, base, x, one, succ);
            Grown(nodes, ps, base, x, one, succ, n) && top == if ps == [] then base else |n| - 1
    decreases |ps|
  {
    if ps != [] {
      var front, last := ps[..|ps| - 1], ps[|ps| - 1];
      var child := Node(Context([one], 0), map[one.symbol as int := succ], Some(base));
      var next := SetSucc(nodes, last, x, Child(|nodes|)) + [child];
      GrowIs(next, front, |nodes|, x, one, succ);
      var n := Grow(next, front, |nodes|, x, one, succ).0;
      assert Grow(nodes, ps, base, x, one, succ) == Grow(next, front, |nodes|, x, one, succ);
      hide Grow;
      OneGrown(nodes, ps, base, x, one, succ, next, n);
    }
  }

  lemma OneGrown(nodes: seq<Node>, ps: seq<nat>, base: nat, x: int, one: State, succ: Succ, next: seq<Node>, n: seq<Node>)
    requires Apart(ps, |nodes|) && ps != []
    requires next == SetSucc(nodes, ps[|ps| - 1], x, Child(|nodes|))
                     + [Node(Context([one], 0), map[one.symbol as int := succ], Some(base))]
    requires Grown(next, ps[..|ps| - 1], |nodes|, x, one, succ, n)
    ensures Grown(nodes, ps, base, x, one, succ, n)
  {
    var front, last := ps[..|ps| - 1], ps[|ps| - 1];
    forall i: nat ensures GrownSame(nodes, ps, n, i) {
      assert GrownSame(next, front, n, i);
    }
    forall j: nat ensures GrownKid(nodes, ps, x, n, j) {
      if j < |front| {
        assert GrownKid(next, front, x, n, j) && front[j] == ps[j];
      } else if j < |ps| {
        assert GrownSame(next, front, n, last);
      }
    }
    forall m: nat ensures GrownNew(nodes, n, base, one, succ, m) {
      if m > 0 {
        assert GrownNew(next, n, |nodes|, one, succ, m - 1);
      } else {
        assert GrownSame(next, front, n, |nodes|);
      }
    }
  }

  // ---------- the contexts of the chain ----------

  lemma ChainFits(nodes: seq<Node>, i: nat)
    requires Linked(nodes) && FitNodes(nodes) && i < |nodes|
    ensures var chain := Chain(nodes, i);
            KeptChain(chain) && chain != [] && |chain[|chain| - 1].states| == 256
  {
    hide Symbols;
    hide KeptContext;
    var path, chain := Path(nodes, i), Chain(nodes, i);
    forall j | 0 <= j < |chain| ensures KeptContext(chain[j]) && 1 <= |chain[j].states| {
      assert FitNode(nodes, path[j]);
    }
    forall j | 0 < j < |chain| ensures Symbols(chain[j - 1].states) <= Symbols(chain[j].states) {
      PathAt(nodes, i, j - 1);
      assert FitNode(nodes, path[j - 1]);
    }
    PathAt(nodes, i, |path| - 1);
  }

  /** A chain after an update: its contexts fit, and know what they knew; the first one may lose symbols at full order. */
  ghost predicate ChainKeeps(was: seq<Context>, now: seq<Context>, full: bool) {
    && |now| == |was| && KeptChain(now) && now != [] && |now[|now| - 1].states| == 256
    && forall j :: 0 <= j < |now| ==>
         Symbols(now[j].states) == Symbols(was[j].states)
         || (full && j == 0 && Symbols(now[j].states) <= Symbols(was[j].states))
  }

  ghost predicate Fell(side: Side, r: Result) {
    r.Found? && r.side.orderFall == side.orderFall + r.level
  }

  lemma TouchedKeeps<T>(t: Tree<T>, r: Result)
    requires t.cur < |t.nodes| && KeptChain(Chain(t.nodes, t.cur)) && r.Found? && Fell(t.side, r)
    requires var chain := Chain(t.nodes, t.cur);
             chain != [] && |chain[|chain| - 1].states| == 256 && Sensible(chain, t.side, r)
    requires |Chain(t.nodes, t.cur)| == 1 ==> t.side.orderFall != 0
    ensures Updatable(t, r)
    ensures var chain := Chain(t.nodes, t.cur);
            var (now, at) := Touched(t, r);
            && ChainKeeps(chain, now, r.side.orderFall == 0)
            && at < |now[r.level].states| && now[r.level].states[at].symbol == r.symbol
            && forall j :: 0 <= j < |now| && j != r.level ==> now[j] == chain[j]
  {
    hide Symbols;
    hide KeptContext;
    hide Updated;
    hide UsableSide;
    var chain, k := Chain(t.nodes, t.cur), r.level;
    var c := chain[k];
    assert forall i :: 0 <= i < |chain| ==> 1 <= |chain[i].states|;
    FoundAt(c.states, r.symbol);
    var found := IndexOf(c.states, r.symbol);
    UpdatedKeeps(c, k, r.symbol, r.how, r.side.orderFall);
    var u := Updated(c, found, r.how, r.side.orderFall);
    UpdateKeepsChain(chain, k, found, r.side.orderFall, u);
    if k == |chain| - 1 {
      FullSize(u.0, c);
    }
  }

  lemma BumpedChain(chain: seq<Context>, k: nat, at: nat)
    requires KeptChain(chain) && k < |chain| && at < |chain[k].states| && |chain[|chain| - 1].states| == 256
    ensures Spreadable(chain, k, at)
    ensures var now := SuffixBumped(chain, k, chain[k].states[at]);
            ChainKeeps(chain, now, false) && forall i :: 0 <= i <= k ==> now[i] == chain[i]
  {
    hide KeptContext;
    hide AfterSuffix;
    var x := chain[k].states[at];
    assert x.symbol as int in Symbols(chain[k].states);
    hide Symbols;
    SuffixBumpedKeeps(chain, k, x);
    var now, last := SuffixBumped(chain, k, x), |chain| - 1;
    if k + 1 < |chain| {
      assert Symbols(chain[k].states) <= Symbols(chain[k + 1].states);
      SuffixThere(chain[k + 1], x.symbol);
      FullSize(now[last], chain[last]);
    }
  }

  /** The contexts passed learn the symbol, the others stay. */
  ghost predicate ChainLearns(was: seq<Context>, now: seq<Context>, k: nat, x: int) {
    && |now| == |was| && KeptChain(now) && now != [] && |now[|now| - 1].states| == 256
    && forall j :: 0 <= j < |now| ==> Symbols(now[j].states) == Symbols(was[j].states) + if j < k then {x} else {}
  }

  lemma SpreadLearns(chain: seq<Context>, k: nat, at: nat, side: Side)
    requires KeptChain(chain) && k < |chain| && at < |chain[k].states| && |chain[|chain| - 1].states| == 256
    requires forall i :: 0 <= i < k ==> chain[k].states[at].symbol as int !in Symbols(chain[i].states)
    requires k > 0 && |chain[0].states| == 1 ==> 0 < side.initEsc <= 25
    requires k > 0 ==> side.orderFall != 0
    ensures Spreadable(chain, k, at)
    ensures ChainLearns(SuffixBumped(chain, k, chain[k].states[at]), Spread(chain, k, at, side), k,
                        chain[k].states[at].symbol as int)
  {
    hide KeptContext;
    hide Append;
    hide SuffixBumped;
    hide Less;
    hide AppendAll;
    hide KeptChain;
    BumpedChain(chain, k, at);
    var x := chain[k].states[at];
    InSymbols(chain[k].states, at);
    hide Symbols;
    var bumped := SuffixBumped(chain, k, x);
    if side.orderFall != 0 {
      var ns := |chain[k].states|;
      AppendedLearns(bumped, k, x, Less(chain[k].summFreq, ns + x.freq - 1), ns, side.initEsc);
    }
  }

  lemma AppendedLearns(chain: seq<Context>, k: nat, x: State, s0: nat, ns: nat, e: nat)
    requires KeptChain(chain) && k < |chain| && |chain[|chain| - 1].states| == 256
    requires x.symbol as int in Symbols(chain[k].states)
    requires forall i :: 0 <= i < k ==> x.symbol as int !in Symbols(chain[i].states)
    requires k > 0 && |chain[0].states| == 1 ==> 0 < e <= 25
    ensures ChainLearns(chain, AppendAll(chain, k, x.symbol, x.freq, s0, ns, e), k, x.symbol as int)
  {
    hide KeptContext;
    hide Append;
    hide Symbols;
    AppendAllKeeps(chain, k, x.symbol, x.freq, s0, ns, e);
    var now := AppendAll(chain, k, x.symbol, x.freq, s0, ns, e);
    forall j | 0 <= j < |now|
      ensures Symbols(now[j].states) == Symbols(chain[j].states) + if j < k then {x.symbol as int} else {}
    {
      if j < k {
        LearnsOne(chain, j, x.symbol, x.freq, s0, ns, e);
      }
    }
  }

  lemma LearnsOne(chain: seq<Context>, j: nat, x: Byte, f: nat, s0: nat, ns: nat, e: nat)
    requires KeptChain(chain) && j < |chain| && x as int !in Symbols(chain[j].states)
    requires |chain[0].states| == 1 ==> 0 < e <= 25
    ensures Symbols(Append(chain[j], x, f, s0, ns, e).states) == Symbols(chain[j].states) + {x as int}
  {
    hide Append;
    hide Symbols;
    hide KeptContext;
    KeptDistinct(chain[j]);
    AbsentMeansRoom(chain[j].states, x);
    if |chain[j].states| == 1 {
      OneFirst(chain, j);
      AppendKeeps(chain[j], x, f, s0, ns, e);
    } else {
      EscOnlyForOne(chain[j], x, f, s0, ns, e, 1);
      AppendKeeps(chain[j], x, f, s0, ns, 1);
    }
  }

  // ---------- new frequencies ----------

  lemma SymbolsOn(nodes: seq<Node>, cur: nat, chain: seq<Context>, i: nat, full: bool, max: nat)
    requires Linked(nodes) && cur < |nodes| && ChainKeeps(Chain(nodes, cur), chain, full) && i < |nodes|
    requires full ==> Depth(nodes, cur) == max
    ensures var now := Write(nodes, Path(nodes, cur), chain)[i];
            && Symbols(now.ctx.states) <= Symbols(nodes[i].ctx.states)
            && (Depth(nodes, i) < max || !full ==> Symbols(now.ctx.states) == Symbols(nodes[i].ctx.states))
            && now.suffix == nodes[i].suffix && now.succ == nodes[i].succ
  {
    hide Symbols;
    hide KeptChain;
    var path := Path(nodes, cur);
    PathApart(nodes, cur);
    WriteIs(nodes, path, chain);
    if i in path {
      var j :| 0 <= j < |path| && path[j] == i;
      PathAt(nodes, cur, j);
    }
  }

  lemma RewrittenFits(nodes: seq<Node>, cur: nat, chain: seq<Context>, full: bool, max: nat)
    requires Linked(nodes) && FitNodes(nodes) && cur < |nodes| && ChainKeeps(Chain(nodes, cur), chain, full)
    requires (full ==> Depth(nodes, cur) == max) && forall i: nat :: i < |nodes| ==> Depth(nodes, i) <= max
    ensures FitNodes(Write(nodes, Path(nodes, cur), chain))
  {
    hide Symbols;
    hide KeptContext;
    hide FitNode;
    hide KeptChain;
    hide Depth;
    hide Write;
    var path := Path(nodes, cur);
    var now := Write(nodes, path, chain);
    PathApart(nodes, cur);
    forall i: nat ensures FitNode(now, i) {
      if i < |nodes| {
        RewrittenNode(nodes, cur, chain, full, max, i);
      } else {
        NoNode(now, i);
      }
    }
    PathAt(nodes, cur, |path| - 1);
    WriteIs(nodes, path, chain);
    assert now[0].ctx == chain[|chain| - 1];
  }

  lemma NoNode(nodes: seq<Node>, i: nat)
    requires |nodes| <= i
    ensures FitNode(nodes, i)
  {
  }

  lemma RewrittenNode(nodes: seq<Node>, cur: nat, chain: seq<Context>, full: bool, max: nat, i: nat)
    requires Linked(nodes) && FitNode(nodes, i) && cur < |nodes| && ChainKeeps(Chain(nodes, cur), chain, full)
    requires (full ==> Depth(nodes, cur) == max) && i < |nodes| && Depth(nodes, i) <= max
    ensures FitNode(Write(nodes, Path(nodes, cur), chain), i)
  {
    hide Symbols;
    hide KeptContext;
    hide Write;
    hide Path;
    hide Linked;
    var path := Path(nodes, cur);
    PathApart(nodes, cur);
    ChainSize(Chain(nodes, cur), chain, full);
    WriteIs(nodes, path, chain);
    SymbolsOn(nodes, cur, chain, i, full, max);
    DepthStep(nodes, i);
    if i in path {
      var j :| 0 <= j < |path| && path[j] == i;
      PathAt(nodes, cur, j);
      if j + 1 < |path| {
        assert Symbols(chain[j].states) <= Symbols(chain[j + 1].states);
      }
    } else if i > 0 {
      SymbolsOn(nodes, cur, chain, nodes[i].suffix.value, full, max);
    }
  }

  lemma RewrittenOnward(w: Scene, chain: seq<Context>, full: bool)
    requires Sane(w) && ChainKeeps(Chain(w.nodes, w.cur), chain, full) && (full ==> Depth(w.nodes, w.cur) == w.max)
    ensures var now := Write(w.nodes, Path(w.nodes, w.cur), chain);
            Onward(w, w.(nodes := now)) && Linked(now) && SameLinks(w.nodes, now)
  {
    hide Symbols;
    hide Depth;
    hide ChainKeeps;
    hide FitNodes;
    ChainSize(Chain(w.nodes, w.cur), chain, full);
    var v := w.(nodes := Write(w.nodes, Path(w.nodes, w.cur), chain));
    forall i: nat
      ensures SameSuffix(w.nodes, v.nodes, i) && LinkOk(v.nodes, i) && KnowsMore(w, v, i)
      ensures i < |w.nodes| ==> w.nodes[i].succ == v.nodes[i].succ
    {
      assert LinkOk(w.nodes, i);
      if i < |w.nodes| {
        SymbolsOn(w.nodes, w.cur, chain, i, full, w.max);
      }
    }
    forall i: nat, x: int ensures SuccStep(w, v, i, x) {
      assert i < |w.nodes| ==> w.nodes[i].succ == v.nodes[i].succ;
    }
    forall i: nat | i < |w.nodes| ensures w.nodes[i].suffix == v.nodes[i].suffix {
      assert SameSuffix(w.nodes, v.nodes, i);
    }
  }

  /** New frequencies in the contexts of the chain keep the tree sane. */
  lemma Rewritten(w: Scene, chain: seq<Context>, full: bool)
    requires Sane(w) && ChainKeeps(Chain(w.nodes, w.cur), chain, full) && (full ==> Depth(w.nodes, w.cur) == w.max)
    ensures var now := Write(w.nodes, Path(w.nodes, w.cur), chain);
            && Sane(w.(nodes := now)) && SameLinks(w.nodes, now) && Path(now, w.cur) == Path(w.nodes, w.cur)
            && Chain(now, w.cur) == chain
  {
    hide Symbols;
    hide Onward;
    hide FitNodes;
    hide SuccOk;
    ChainSize(Chain(w.nodes, w.cur), chain, full);
    var path := Path(w.nodes, w.cur);
    var v := w.(nodes := Write(w.nodes, path, chain));
    RewrittenOnward(w, chain, full);
    OnwardSame(w, v);
    forall i: nat ensures DepthOk(v, i) {
      assert DepthOk(w, i);
      if i < |w.nodes| {
        DepthSame(w, v, i);
      }
    }
    forall i: nat | i < |w.nodes| ensures Depth(w.nodes, i) <= w.max {
      assert DepthOk(w, i);
    }
    RewrittenFits(w.nodes, w.cur, chain, full, w.max);
    forall i: nat, x: int ensures SuccOk(v, i, x) {
      NoHas(v, i, x);
      if Has(v.nodes, i, x) {
        SymbolsOn(w.nodes, w.cur, chain, i, full, w.max);
        OldSucc(w, v, i, x);
      }
    }
    PathSame(w.nodes, v.nodes, w.cur);
    PathApart(w.nodes, w.cur);
    WriteIs(w.nodes, path, chain);
  }

  lemma NoHas(v: Scene, i: nat, x: int)
    ensures !Has(v.nodes, i, x) ==> SuccOk(v, i, x)
  {
  }

  lemma OnwardSame(w: Scene, v: Scene)
    requires Onward(w, v)
    ensures SameSuffixes(w.nodes, v.nodes) && v.max == w.max
  {
  }

  lemma ChainSize(was: seq<Context>, now: seq<Context>, full: bool)
    requires ChainKeeps(was, now, full)
    ensures |now| == |was|
  {
  }

  // ---------- one step through the tree ----------

  /**
    What a step changes: the first `k` contexts of the path learn `x` with the successor `passed`, that of the next one
    is `found`; the suffixes `ups`, and that one itself if it is its `own`, lead to new contexts for the symbol `b`
    at `r` in the text, above `base`.
   */
  datatype Move = Move(path: seq<nat>, k: nat, x: Byte, found: Succ, passed: Succ, ups: seq<nat>, own: bool, base: nat, r: nat, b: Byte)

  function Made(m: Move): nat {
    |m.ups| + if m.own then 1 else 0
  }

  /** The contexts passed. */
  function Front(m: Move): (f: seq<nat>) {
    if m.k <= |m.path| then m.path[..m.k] else m.path
  }

  /** How contexts are changed. */
  ghost predicate NodeMoved(w: Scene, v: Scene, m: Move, i: nat) {
    i < |w.nodes| ==>
      && i < |v.nodes| && v.nodes[i].suffix == w.nodes[i].suffix
      && KeptContext(v.nodes[i].ctx) && 1 <= |v.nodes[i].ctx.states|
      && Symbols(v.nodes[i].ctx.states) ==
         Symbols(w.nodes[i].ctx.states) + (if i in Front(m) then {m.x as int} else {})
  }

  /** How successors are changed. */
  ghost predicate SuccMoved(w: Scene, v: Scene, m: Move, i: nat, a: int) {
    i < |w.nodes| && m.k < |m.path| ==>
      var now := SuccOf(v.nodes, i, a);
      if a != m.x as int then now == SuccOf(w.nodes, i, a)
      else if i in Front(m) then now == m.passed
      else if i == m.path[m.k] then now == m.found
      else if i in m.ups then exists j :: 0 <= j < |m.ups| && m.ups[j] == i && now == Child(Kid(w.nodes, m.ups, j))
      else now == SuccOf(w.nodes, i, a)
  }

  /** The new contexts: one state each, its successor the place behind it. */
  ghost predicate NewMoved(w: Scene, v: Scene, m: Move, j: nat) {
    j < Made(m) ==>
      && |w.nodes| + j < |v.nodes|
      && var n := v.nodes[|w.nodes| + j];
         && |n.ctx.states| == 1 && n.ctx.states[0].symbol == m.b && 1 <= n.ctx.states[0].freq <= 128
         && n.succ == map[m.b as int := Raw(m.r + 1)]
         && n.suffix == Some(if j == 0 then m.base else |w.nodes| + j - 1)
  }

  ghost predicate Changes(w: Scene, v: Scene, m: Move) {
    && |v.nodes| == |w.nodes| + Made(m) && v.max == w.max && (v.nodes != [] ==> |v.nodes[0].ctx.states| == 256)
    && (forall i :: NodeMoved(w, v, m, i)) && (forall i, a :: SuccMoved(w, v, m, i, a)) && forall j :: NewMoved(w, v, m, j)
  }

  /** Where the symbol was found, and what is gathered there. */
  ghost predicate Starts(w: Scene, m: Move) {
    && Sane(w) && m.path == Path(w.nodes, w.cur) && m.k < |m.path|
    && Has(w.nodes, m.path[m.k], m.x as int) && (forall j :: 0 <= j < m.k ==> !Has(w.nodes, m.path[j], m.x as int))
  }

  /** The three ways on: the root, which had no successor yet; a context; or a place in the text made one. */
  ghost predicate Found(w: Scene, v: Scene, m: Move)
    requires Starts(w, m)
  {
    var at := m.path[m.k];
    match SuccOf(w.nodes, at, m.x as int)
    case Unset => m.found == Raw(|v.text|) && v.cur == at && |v.text| > |w.text| && Made(m) == 0
    case Child(id) => m.found == Child(id) && v.cur == id && Made(m) == 0 && Depth(w.nodes, at) < w.max
    case Raw(r) =>
      && r == m.r && m.found == Child(v.cur) && (m.ups, Some(m.base)) == Gather(w.nodes, at, m.x as int, r)
      && (r < |v.text| ==> m.b == v.text[r])
      && (if m.own then Depth(w.nodes, at) < w.max && v.cur == |w.nodes| + |m.ups|
          else Depth(w.nodes, at) == w.max && v.cur == if m.ups == [] then m.base else |w.nodes| + |m.ups| - 1)
  }

  /**
    The text goes on with the symbol, unless a context at full order goes on, or the order becomes full with contexts
    passed. Those lead to the place behind it, or at full order where the found state leads.
   */
  ghost predicate Grows(w: Scene, v: Scene, m: Move)
    requires m.k < |m.path| && m.path[m.k] < |w.nodes|
  {
    var at := m.path[m.k];
    var d, up := Depth(w.nodes, at), !SuccOf(w.nodes, at, m.x as int).Unset?;
    && v.text == (if d == w.max || (up && d + 1 == w.max && m.k > 0) then w.text else w.text + [m.x])
    && (m.k > 0 ==> m.passed == if up && d + 1 == w.max then Child(v.cur) else Raw(|v.text|))
  }

  /** Only from full order the text may stay. */
  ghost predicate Leads(w: Scene, v: Scene, m: Move)
    requires Starts(w, m)
  {
    && v.cur < |v.nodes| && Found(w, v, m) && Grows(w, v, m)
    && (v.text == w.text + [m.x] || (v.text == w.text && Depth(w.nodes, w.cur) == w.max))
    && (m.k > 0 ==>
          || (m.passed == Raw(|v.text|) && v.text == w.text + [m.x])
          || (m.passed == Child(v.cur) && m.found == Child(v.cur) && Depth(w.nodes, m.path[m.k]) + 1 == w.max))
  }

  lemma GatheredBase(w: Scene, v: Scene, m: Move)
    requires Starts(w, m) && Leads(w, v, m) && SuccOf(w.nodes, m.path[m.k], m.x as int).Raw?
    ensures m.base < |w.nodes| && Depth(w.nodes, m.base) + |m.ups| == Depth(w.nodes, m.path[m.k]) <= w.max
    ensures Continues(w, m.r, Child(m.base)) && m.ups == Path(w.nodes, m.path[m.k])[1..1 + |m.ups|]
    ensures forall j :: 0 <= j < |m.ups| ==> Has(w.nodes, m.ups[j], m.x as int) && SuccOf(w.nodes, m.ups[j], m.x as int) == Raw(m.r)
    ensures Made(m) > 0 ==> Depth(w.nodes, m.base) < w.max && m.r < |v.text| && m.b == v.text[m.r] && m.r <= |w.text|
  {
    hide Symbols;
    hide Depth;
    var at := m.path[m.k];
    GatherIs(w, at, m.x as int, m.r);
    assert DepthOk(w, at);
  }

  lemma NewLinked(w: Scene, v: Scene, m: Move)
    requires Starts(w, m) && Leads(w, v, m) && Changes(w, v, m)
    ensures Linked(v.nodes) && SameSuffixes(w.nodes, v.nodes)
  {
    hide Symbols;
    hide Depth;
    hide KeptContext;
    if Made(m) > 0 {
      GatheredBase(w, v, m);
    }
    forall i: nat ensures LinkOk(v.nodes, i) && SameSuffix(w.nodes, v.nodes, i) {
      if i < |w.nodes| {
        assert NodeMoved(w, v, m, i) && LinkOk(w.nodes, i);
      } else {
        assert NewMoved(w, v, m, i - |w.nodes|);
      }
    }
  }

  lemma {:induction false} NewDepth(w: Scene, v: Scene, m: Move, j: nat)
    requires Starts(w, m) && Leads(w, v, m) && Changes(w, v, m) && j < Made(m)
    ensures |w.nodes| + j < |v.nodes| && m.base < |w.nodes|
    ensures Depth(v.nodes, |w.nodes| + j) == Depth(w.nodes, m.base) + 1 + j <= w.max
    decreases j
  {
    hide Symbols;
    hide KeptContext;
    NewLinked(w, v, m);
    GatheredBase(w, v, m);
    assert NewMoved(w, v, m, j);
    DepthStep(v.nodes, |w.nodes| + j);
    if j == 0 {
      DepthSame(w, v, m.base);
    } else {
      NewDepth(w, v, m, j - 1);
    }
  }

  lemma DepthsFit(w: Scene, v: Scene, m: Move)
    requires Starts(w, m) && Leads(w, v, m) && Changes(w, v, m)
    ensures forall i :: DepthOk(v, i)
  {
    hide Depth;
    hide Symbols;
    hide KeptContext;
    hide NodeMoved;
    hide SuccMoved;
    hide NewMoved;
    hide Leads;
    NewLinked(w, v, m);
    forall i: nat ensures DepthOk(v, i) {
      if i < |w.nodes| {
        DepthSame(w, v, i);
        assert DepthOk(w, i);
      } else if i < |v.nodes| {
        NewDepth(w, v, m, i - |w.nodes|);
      }
    }
  }

  /** A new context is one order above the state it is made for. */
  lemma KidFits(w: Scene, v: Scene, m: Move, j: nat)
    requires Starts(w, m) && Leads(w, v, m) && Changes(w, v, m) && j < |m.ups|
    ensures Kid(w.nodes, m.ups, j) < |v.nodes| && m.ups[j] < |w.nodes| && Made(m) > 0
    ensures Depth(v.nodes, Kid(w.nodes, m.ups, j)) == Longer(Depth(w.nodes, m.ups[j]), w.max)
    ensures Upgraded(v, m.r, Child(Kid(w.nodes, m.ups, j)))
  {
    hide Symbols;
    hide Sane;
    hide Continues;
    hide Upgraded;
    hide NodeMoved;
    hide SuccMoved;
    hide NewMoved;
    hide Path;
    SaneLinked(w);
    RawAt(w, v, m);
    GatheredBase(w, v, m);
    var at := m.path[m.k];
    NewDepth(w, v, m, |m.ups| - 1 - j);
    PathAt(w.nodes, at, j + 1);
    assert m.ups[j] == Path(w.nodes, at)[j + 1];
    NewUpgrades(w, v, m, |m.ups| - 1 - j);
  }

  lemma RawAt(w: Scene, v: Scene, m: Move)
    requires Starts(w, m) && Leads(w, v, m) && Made(m) > 0
    ensures m.path[m.k] < |w.nodes| && SuccOf(w.nodes, m.path[m.k], m.x as int).Raw?
  {
    hide Sane;
    hide Depth;
    hide Symbols;
  }

  lemma NewUpgrades(w: Scene, v: Scene, m: Move, j: nat)
    requires Starts(w, m) && Leads(w, v, m) && Changes(w, v, m) && j < Made(m)
    ensures |w.nodes| + j < |v.nodes| && Upgraded(v, m.r, Child(|w.nodes| + j))
    ensures Symbols(v.nodes[|w.nodes| + j].ctx.states) == {m.b as int}
  {
    hide Depth;
    hide KeptContext;
    hide Continues;
    GatheredBase(w, v, m);
    assert NewMoved(w, v, m, j);
    OneSymbol(v.nodes[|w.nodes| + j].ctx.states);
  }

  lemma CurFits(w: Scene, v: Scene, m: Move)
    requires Starts(w, m) && Leads(w, v, m) && Changes(w, v, m)
    ensures v.cur < |v.nodes|
    ensures var at := m.path[m.k];
            match SuccOf(w.nodes, at, m.x as int)
            case Unset => v.cur == at == 0 && Depth(v.nodes, v.cur) == 0 == Depth(w.nodes, at)
            case _ => m.found == Child(v.cur) && Depth(v.nodes, v.cur) == Longer(Depth(w.nodes, at), w.max)
    ensures SuccOf(w.nodes, m.path[m.k], m.x as int).Raw? ==> Upgraded(v, m.r, m.found)
  {
    hide Symbols;
    hide KeptContext;
    hide Continues;
    hide NodeMoved;
    hide SuccMoved;
    var at := m.path[m.k];
    NewLinked(w, v, m);
    assert SuccOk(w, at, m.x as int) && DepthOk(w, at);
    match SuccOf(w.nodes, at, m.x as int)
    case Unset => DepthStep(v.nodes, 0); DepthStep(w.nodes, 0);
    case Child(id) => DepthSame(w, v, id);
    case Raw(r) =>
      GatheredBase(w, v, m);
      if Made(m) > 0 {
        NewDepth(w, v, m, v.cur - |w.nodes|);
        NewUpgrades(w, v, m, v.cur - |w.nodes|);
      } else {
        DepthSame(w, v, m.base);
      }
  }

  /** Every successor that was there stays, or is a place made a context. */
  lemma StepOfSucc(w: Scene, v: Scene, m: Move, i: nat, x: int)
    requires Starts(w, m) && Leads(w, v, m) && Changes(w, v, m)
    ensures SuccStep(w, v, i, x)
  {
    hide Symbols;
    hide Depth;
    hide KeptContext;
    hide Continues;
    hide Upgraded;
    if Has(w.nodes, i, x) && x == m.x as int {
      assert SuccMoved(w, v, m, i, x);
      if i in Front(m) {
        FrontLacks(w, m, i);
      } else if i == m.path[m.k] {
        CurFits(w, v, m);
      } else if i in m.ups && Made(m) > 0 {
        var j :| 0 <= j < |m.ups| && m.ups[j] == i && SuccOf(v.nodes, i, x) == Child(Kid(w.nodes, m.ups, j));
        KidFits(w, v, m, j);
        GatheredBase(w, v, m);
      }
    } else if Has(w.nodes, i, x) {
      assert SuccMoved(w, v, m, i, x);
    }
  }

  lemma FrontLacks(w: Scene, m: Move, i: nat)
    requires Starts(w, m) && i in Front(m)
    ensures !Has(w.nodes, i, m.x as int)
  {
    var j :| 0 <= j < m.k && m.path[j] == i;
  }

  lemma MovesOnward(w: Scene, v: Scene, m: Move)
    requires Starts(w, m) && Leads(w, v, m) && Changes(w, v, m)
    ensures Onward(w, v) && Linked(v.nodes) && (forall i :: DepthOk(v, i))
  {
    hide Symbols;
    hide KeptContext;
    hide SuccStep;
    NewLinked(w, v, m);
    DepthsFit(w, v, m);
    forall i: nat ensures KnowsMore(w, v, i) {
      assert NodeMoved(w, v, m, i);
    }
    forall i: nat, x: int ensures SuccStep(w, v, i, x) {
      StepOfSucc(w, v, m, i, x);
    }
    EndMoves(w, v, m);
  }

  /** MinContext knows the symbol now, and its successor leads to the new end. */
  lemma EndMoves(w: Scene, v: Scene, m: Move)
    requires Starts(w, m) && Leads(w, v, m) && Changes(w, v, m)
    ensures EndGoesOn(w, v)
  {
    hide Symbols;
    hide KeptContext;
    if Depth(w.nodes, w.cur) < w.max {
      var x := m.x as int;
      assert NodeMoved(w, v, m, w.cur) && SuccMoved(w, v, m, w.cur, x);
      CurFits(w, v, m);
      PathAt(w.nodes, w.cur, m.k);
      if m.k == 0 {
        assert Front(m) == [];
      } else {
        assert Front(m)[0] == w.cur && w.cur in Front(m);
      }
      assert Has(v.nodes, w.cur, x);
    }
  }

  lemma FrontValues(w: Scene, v: Scene, m: Move, j: nat)
    requires Starts(w, m) && Changes(w, v, m) && j < m.k
    ensures var i, s, x := m.path[j], m.path[j + 1], m.x as int;
            && i < |w.nodes| && i < |v.nodes| && v.nodes[i].suffix == Some(s) && SuccOf(v.nodes, i, x) == m.passed
            && SuccOf(v.nodes, s, x) == (if j + 1 < m.k then m.passed else m.found)
            && Depth(w.nodes, i) == Depth(w.nodes, m.path[m.k]) + (m.k - j)
  {
    hide Symbols;
    hide Depth;
    hide KeptContext;
    hide Sane;
    hide SuccMoved;
    var i, s, x := m.path[j], m.path[j + 1], m.x as int;
    assert Linked(w.nodes) by {
      SaneLinked(w);
    }
    PathAt(w.nodes, w.cur, j);
    PathAt(w.nodes, w.cur, m.k);
    assert NodeMoved(w, v, m, i);
    FrontValue(w, v, m, j);
    if j + 1 < m.k {
      FrontValue(w, v, m, j + 1);
    } else {
      FoundValue(w, v, m);
    }
  }

  lemma SaneNode(w: Scene, i: nat)
    requires Sane(w)
    ensures FitNode(w.nodes, i) && LinkOk(w.nodes, i) && DepthOk(w, i)
  {
    hide Depth;
    hide KeptContext;
    hide Symbols;
    hide SuccOk;
  }

  lemma SaneLinked(w: Scene)
    requires Sane(w)
    ensures Linked(w.nodes) && 0 < w.max && w.cur < |w.nodes|
  {
  }

  lemma FrontValue(w: Scene, v: Scene, m: Move, j: nat)
    requires Starts(w, m) && Changes(w, v, m) && j < m.k
    ensures SuccOf(v.nodes, m.path[j], m.x as int) == m.passed
  {
    hide Sane;
    hide Has;
    hide SuccOf;
    assert SuccMoved(w, v, m, m.path[j], m.x as int) && Front(m)[j] == m.path[j];
  }

  lemma FoundValue(w: Scene, v: Scene, m: Move)
    requires Starts(w, m) && Changes(w, v, m)
    ensures SuccOf(v.nodes, m.path[m.k], m.x as int) == m.found
  {
    hide Sane;
    hide SuccOf;
    FoundNotFront(w, m);
    assert SuccMoved(w, v, m, m.path[m.k], m.x as int);
  }

  /** The contexts passed lead to the end of the text, or straight to where the model goes. */
  lemma FrontSucc(w: Scene, v: Scene, m: Move, j: nat)
    requires Starts(w, m) && Leads(w, v, m) && Changes(w, v, m) && j < m.k
    ensures SuccOk(v, m.path[j], m.x as int)
  {
    hide Symbols;
    hide Depth;
    hide Sane;
    FrontValues(w, v, m, j);
    CurFits(w, v, m);
    NewLinked(w, v, m);
    DepthSame(w, v, m.path[j]);
    assert DepthOk(w, m.path[j]) by {
      SaneDepth(w, m.path[j]);
    }
    hide Changes;
  }

  lemma SaneDepth(w: Scene, i: nat)
    requires Sane(w)
    ensures DepthOk(w, i)
  {
    hide Depth;
  }

  lemma FoundSucc(w: Scene, v: Scene, m: Move)
    requires Starts(w, m) && Leads(w, v, m) && Changes(w, v, m)
    ensures SuccOk(v, m.path[m.k], m.x as int)
  {
    hide Symbols;
    hide Depth;
    hide KeptContext;
    var at, x := m.path[m.k], m.x as int;
    FoundNotFront(w, m);
    assert NodeMoved(w, v, m, at) && SuccMoved(w, v, m, at, x) && LinkOk(w.nodes, at);
    CurFits(w, v, m);
    NewLinked(w, v, m);
    DepthSame(w, v, at);
  }

  lemma FoundNotFront(w: Scene, m: Move)
    requires Starts(w, m)
    ensures m.path[m.k] !in Front(m)
  {
    if m.path[m.k] in Front(m) {
      FrontLacks(w, m, m.path[m.k]);
    }
  }

  lemma NewSucc(w: Scene, v: Scene, m: Move, j: nat, a: int)
    requires Starts(w, m) && Leads(w, v, m) && Changes(w, v, m) && j < Made(m)
    ensures |w.nodes| + j < |v.nodes| && SuccOk(v, |w.nodes| + j, a)
    ensures j == 0 ==> m.base < |w.nodes| && Has(v.nodes, m.base, m.b as int)
  {
    hide Symbols;
    hide Depth;
    hide KeptContext;
    var i := |w.nodes| + j;
    GatheredBase(w, v, m);
    NewUpgrades(w, v, m, j);
    assert NewMoved(w, v, m, j);
    if j == 0 {
      MovesOnward(w, v, m);
      hide Onward;
      Stays(w, v, m.r, Child(m.base));
      DepthSame(w, v, m.base);
    } else {
      assert NewMoved(w, v, m, j - 1);
    }
  }

  lemma AllSuccs(w: Scene, v: Scene, m: Move, i: nat, a: int)
    requires Starts(w, m) && Leads(w, v, m) && Changes(w, v, m)
    ensures SuccOk(v, i, a)
  {
    hide Symbols;
    hide Depth;
    hide KeptContext;
    hide Continues;
    hide Leads;
    hide Sane;
    NoHas(v, i, a);
    if |w.nodes| <= i < |v.nodes| {
      NewSucc(w, v, m, i - |w.nodes|, a);
    } else if Has(v.nodes, i, a) {
      assert NodeMoved(w, v, m, i) && SuccMoved(w, v, m, i, a);
      if a == m.x as int && i in Front(m) {
        var j :| 0 <= j < m.k && m.path[j] == i;
        FrontSucc(w, v, m, j);
      } else if a == m.x as int && i == m.path[m.k] {
        FoundSucc(w, v, m);
      } else if a == m.x as int && i in m.ups {
        KidSucc(w, v, m, i);
      } else {
        MovesOnward(w, v, m);
        OldSucc(w, v, i, a);
      }
    }
  }

  lemma KidSucc(w: Scene, v: Scene, m: Move, i: nat)
    requires Starts(w, m) && Leads(w, v, m) && Changes(w, v, m)
    requires i in m.ups && i < |w.nodes| && i !in Front(m) && i != m.path[m.k]
    ensures SuccOk(v, i, m.x as int)
  {
    hide Symbols;
    hide Depth;
    hide KeptContext;
    hide Leads;
    assert SuccMoved(w, v, m, i, m.x as int);
    var j :| 0 <= j < |m.ups| && m.ups[j] == i && SuccOf(v.nodes, i, m.x as int) == Child(Kid(w.nodes, m.ups, j));
    KidFits(w, v, m, j);
    NewLinked(w, v, m);
    DepthSame(w, v, i);
  }

  lemma MovedFits(w: Scene, v: Scene, m: Move)
    requires Starts(w, m) && Leads(w, v, m) && Changes(w, v, m)
    ensures FitNodes(v.nodes)
  {
    hide Symbols;
    hide Depth;
    hide Continues;
    hide Leads;
    hide SuccMoved;
    forall i: nat ensures FitNode(v.nodes, i) {
      if i < |w.nodes| {
        OldNodeFits(w, v, m, i);
      } else if i < |v.nodes| {
        NewNodeFits(w, v, m, i - |w.nodes|);
      }
    }
  }

  lemma NodeAt(w: Scene, v: Scene, m: Move, i: nat)
    requires Changes(w, v, m) && i < |w.nodes|
    ensures NodeMoved(w, v, m, i)
  {
    hide NodeMoved;
    hide SuccMoved;
    hide NewMoved;
  }

  lemma OldNodeFits(w: Scene, v: Scene, m: Move, i: nat)
    requires Starts(w, m) && Leads(w, v, m) && Changes(w, v, m) && i < |w.nodes|
    ensures FitNode(v.nodes, i)
  {
    hide Symbols;
    hide Depth;
    hide KeptContext;
    hide Leads;
    hide Sane;
    hide Changes;
    NodeAt(w, v, m, i);
    SaneNode(w, i);
    if i > 0 {
      var s := w.nodes[i].suffix.value;
      NodeAt(w, v, m, s);
      if i in Front(m) {
        FrontNext(w, m, i);
      }
    }
  }

  /** The suffix of a context passed is passed too, or has the symbol. */
  lemma FrontNext(w: Scene, m: Move, i: nat)
    requires Starts(w, m) && i in Front(m)
    ensures i < |w.nodes| && w.nodes[i].suffix.Some?
    ensures w.nodes[i].suffix.value in Front(m) || Has(w.nodes, w.nodes[i].suffix.value, m.x as int)
  {
    hide Sane;
    hide Linked;
    hide Path;
    hide Depth;
    hide Has;
    SaneLinked(w);
    var j := InFront(m, i);
    PathAt(w.nodes, w.cur, j);
    if j + 1 < m.k {
      assert Front(m)[j + 1] == m.path[j + 1];
    }
  }

  lemma InFront(m: Move, i: nat) returns (j: nat)
    requires m.k <= |m.path| && i in Front(m)
    ensures j < m.k && m.path[j] == i
  {
    j :| j < m.k && m.path[..m.k][j] == i;
  }

  lemma NewNodeFits(w: Scene, v: Scene, m: Move, j: nat)
    requires Starts(w, m) && Leads(w, v, m) && Changes(w, v, m) && j < Made(m)
    ensures |w.nodes| + j < |v.nodes| && FitNode(v.nodes, |w.nodes| + j)
  {
    hide Depth;
    hide Continues;
    hide Leads;
    hide SuccMoved;
    hide Symbols;
    assert NewMoved(w, v, m, j);
    NewUpgrades(w, v, m, j);
    if j == 0 {
      NewSucc(w, v, m, j, 0);
    } else {
      NewUpgrades(w, v, m, j - 1);
    }
  }

  /** A step keeps the tree sane. */
  lemma MovesSane(w: Scene, v: Scene, m: Move)
    requires Starts(w, m) && Leads(w, v, m) && Changes(w, v, m)
    ensures Sane(v)
  {
    hide Symbols;
    hide Depth;
    hide KeptContext;
    hide Continues;
    hide SuccOk;
    hide FitNodes;
    hide Onward;
    hide Found;
    MovesOnward(w, v, m);
    MovedFits(w, v, m);
    forall i: nat, a: int ensures SuccOk(v, i, a) {
      AllSuccs(w, v, m, i, a);
    }
  }

  // ---------- the functions of the model make such a step ----------

  /** What the middle of `UpdateModel` does to an old context. */
  ghost predicate TurnOld(w: Scene, n: seq<Node>, m: Move, i: nat) {
    i < |w.nodes| && m.k < |m.path| ==>
      && i < |n| && n[i].ctx == w.nodes[i].ctx && n[i].suffix == w.nodes[i].suffix
      && var x := m.x as int;
         (forall a :: a != x ==> SuccOf(n, i, a) == SuccOf(w.nodes, i, a))
         && (if i == m.path[m.k] then m.found.Unset? || SuccOf(n, i, x) == m.found
             else if i in m.ups then exists j :: 0 <= j < |m.ups| && m.ups[j] == i && SuccOf(n, i, x) == Child(Kid(w.nodes, m.ups, j))
             else SuccOf(n, i, x) == SuccOf(w.nodes, i, x))
  }

  ghost predicate Turns(w: Scene, n: seq<Node>, m: Move) {
    && |n| == |w.nodes| + Made(m) && !m.found.Unset?
    && (forall i :: TurnOld(w, n, m, i)) && forall j :: NewMoved(w, w.(nodes := n), m, j)
  }

  ghost predicate Spreads(w: Scene, n: seq<Node>, chain: seq<Context>, v: Scene, m: Move) {
    && m.k <= |m.path| == |chain| && v.max == w.max
    && v.nodes == SetAll(Write(n, m.path, chain), m.path[..m.k], m.x as int, m.passed)
  }

  lemma SpreadOld(w: Scene, n: seq<Node>, chain: seq<Context>, v: Scene, m: Move, i: nat)
    requires Starts(w, m) && Turns(w, n, m) && Spreads(w, n, chain, v, m)
    ensures |v.nodes| == |n|
    ensures i < |n| ==>
              && v.nodes[i].suffix == n[i].suffix
              && (i !in m.path ==> v.nodes[i] == n[i])
              && (i !in Front(m) ==> v.nodes[i].succ == n[i].succ)
              && (i in Front(m) ==> v.nodes[i].succ == n[i].succ[m.x as int := m.passed])
    ensures forall j :: 0 <= j < |m.path| ==> m.path[j] < |n| && v.nodes[m.path[j]].ctx == chain[j]
  {
    hide Symbols;
    hide Sane;
    hide Turns;
    hide Has;
    hide Path;
    SaneLinked(w);
    PathApart(w.nodes, w.cur);
    TurnSize(w, n, m);
    SpreadPath(n, m.path, chain, m.k, m.x as int, m.passed, i);
  }

  /** The append loop on a path of contexts. */
  lemma SpreadPath(n: seq<Node>, path: seq<nat>, chain: seq<Context>, k: nat, x: int, passed: Succ, i: nat)
    requires |chain| == |path| && Apart(path, |n|) && k <= |path|
    ensures var r := SetAll(Write(n, path, chain), path[..k], x, passed);
            && |r| == |n|
            && (i < |n| ==>
                  && r[i].suffix == n[i].suffix && (i !in path ==> r[i] == n[i])
                  && (i !in path[..k] ==> r[i].succ == n[i].succ)
                  && (i in path[..k] ==> r[i].succ == n[i].succ[x := passed]))
            && forall j :: 0 <= j < |path| ==> r[path[j]].ctx == chain[j]
  {
    var written := Write(n, path, chain);
    WriteIs(n, path, chain);
    SetAllIs(written, path[..k], x, passed);
    hide Write;
    hide SetAll;
    var r := SetAll(written, path[..k], x, passed);
    if i < |n| && i in path {
      var j :| 0 <= j < |path| && path[j] == i;
      assert j < k ==> path[..k][j] == i;
    }
    forall j | 0 <= j < |path| ensures r[path[j]].ctx == chain[j] {
      if j < k {
        assert path[..k][j] == path[j];
      } else {
        assert path[j] !in path[..k];
      }
    }
  }

  lemma TurnAt(w: Scene, n: seq<Node>, m: Move, i: nat)
    requires Turns(w, n, m)
    ensures TurnOld(w, n, m, i)
  {
    hide TurnOld;
    hide NewMoved;
  }

  lemma FrontIs(w: Scene, m: Move, j: nat)
    requires Starts(w, m) && j < |m.path|
    ensures m.path[j] in Front(m) <==> j < m.k
  {
    hide Sane;
    hide Has;
    SaneLinked(w);
    PathApart(w.nodes, w.cur);
    if j < m.k {
      assert Front(m)[j] == m.path[j];
    }
  }

  lemma SpreadNode(w: Scene, n: seq<Node>, chain: seq<Context>, v: Scene, m: Move, i: nat)
    requires Starts(w, m) && Turns(w, n, m) && Spreads(w, n, chain, v, m)
    requires ChainLearns(Chain(w.nodes, w.cur), chain, m.k, m.x as int)
    ensures NodeMoved(w, v, m, i)
  {
    hide Symbols;
    hide KeptContext;
    hide NewMoved;
    hide Sane;
    hide Turns;
    hide Spreads;
    hide Has;
    hide SuccOf;
    if i < |w.nodes| {
      TurnAt(w, n, m, i);
      SaneNode(w, i);
      TurnSize(w, n, m);
      SpreadOld(w, n, chain, v, m, i);
      if i in m.path {
        var j :| 0 <= j < |m.path| && m.path[j] == i;
        FrontIs(w, m, j);
      }
    }
  }

  lemma SpreadSucc(w: Scene, n: seq<Node>, chain: seq<Context>, v: Scene, m: Move, i: nat, a: int)
    requires Starts(w, m) && Turns(w, n, m) && Spreads(w, n, chain, v, m)
    ensures SuccMoved(w, v, m, i, a)
  {
    hide Symbols;
    hide Sane;
    hide NewMoved;
    hide Spreads;
    if i < |w.nodes| {
      assert TurnOld(w, n, m, i);
      SpreadOld(w, n, chain, v, m, i);
      if i !in Front(m) {
        assert SuccOf(v.nodes, i, a) == SuccOf(n, i, a);
      }
    }
  }

  lemma SpreadNew(w: Scene, n: seq<Node>, chain: seq<Context>, v: Scene, m: Move, j: nat)
    requires Starts(w, m) && Turns(w, n, m) && Spreads(w, n, chain, v, m)
    ensures NewMoved(w, v, m, j)
  {
    hide Symbols;
    hide Sane;
    hide TurnOld;
    hide Has;
    assert NewMoved(w, w.(nodes := n), m, j);
    if j < Made(m) {
      SpreadOld(w, n, chain, v, m, |w.nodes| + j);
    }
  }

  lemma SpreadRoot(w: Scene, n: seq<Node>, chain: seq<Context>, v: Scene, m: Move)
    requires Starts(w, m) && Turns(w, n, m) && Spreads(w, n, chain, v, m)
    requires ChainLearns(Chain(w.nodes, w.cur), chain, m.k, m.x as int)
    ensures |v.nodes| == |w.nodes| + Made(m) && v.nodes != [] && |v.nodes[0].ctx.states| == 256
  {
    hide Symbols;
    hide Sane;
    hide Turns;
    hide KeptChain;
    hide Has;
    hide Path;
    hide Spreads;
    SaneLinked(w);
    TurnSize(w, n, m);
    PathAt(w.nodes, w.cur, |m.path| - 1);
    SpreadOld(w, n, chain, v, m, 0);
    assert v.nodes[m.path[|m.path| - 1]].ctx == chain[|m.path| - 1];
  }

  lemma SpreadChanges(w: Scene, n: seq<Node>, chain: seq<Context>, v: Scene, m: Move)
    requires Starts(w, m) && Turns(w, n, m) && Spreads(w, n, chain, v, m)
    requires ChainLearns(Chain(w.nodes, w.cur), chain, m.k, m.x as int)
    ensures Changes(w, v, m)
  {
    hide Symbols;
    hide Sane;
    hide NodeMoved;
    hide SuccMoved;
    hide NewMoved;
    hide Turns;
    hide ChainLearns;
    hide Starts;
    forall i: nat ensures NodeMoved(w, v, m, i) {
      SpreadNode(w, n, chain, v, m, i);
    }
    forall i: nat, a: int ensures SuccMoved(w, v, m, i, a) {
      SpreadSucc(w, n, chain, v, m, i, a);
    }
    forall j: nat ensures NewMoved(w, v, m, j) {
      SpreadNew(w, n, chain, v, m, j);
    }
    SpreadRoot(w, n, chain, v, m);
  }

  lemma UpFreqFits(c: Context, symbol: Byte)
    requires KeptContext(c) && 1 <= |c.states|
    ensures 1 <= UpFreq(c, symbol) <= 128
  {
    if |c.states| != 1 {
      var i := PlaceOf(c.states, symbol);
      RestPositive(c.states, c.summFreq, i);
      var cf := Less(c.states[i].freq, 1);
      var s0 := Less(c.summFreq, |c.states| + cf);
      if 2 * cf > s0 {
        ShareFits(cf, s0);
      }
    }
  }

  lemma ShareFits(cf: nat, s0: nat)
    requires 1 <= s0 < 2 * cf && cf <= 123
    ensures Quotient(2 * cf + 3 * s0 - 1, 2 * s0) <= 127
  {
    var n, q := 2 * cf + 3 * s0 - 1, Quotient(2 * cf + 3 * s0 - 1, 2 * s0);
    assert n == q * (2 * s0) + n % (2 * s0);
    if q >= 128 {
      MulLe(128, q, 2 * s0);
    }
  }

  /** What is gathered, and the state it starts from, are on one path. */
  lemma GatheredApart(w: Scene, m: Move)
    requires Starts(w, m) && SuccOf(w.nodes, m.path[m.k], m.x as int) == Raw(m.r)
    requires (m.ups, Some(m.base)) == Gather(w.nodes, m.path[m.k], m.x as int, m.r)
    ensures m.base < |w.nodes| && Apart(m.ups, |w.nodes|) && Apart([m.path[m.k]] + m.ups, |w.nodes|)
    ensures m.path[m.k] !in m.ups
  {
    hide Symbols;
    hide Continues;
    hide Path;
    hide Sane;
    hide Gather;
    hide Apart;
    GatherIs(w, m.path[m.k], m.x as int, m.r);
    SaneLinked(w);
    PathApart(w.nodes, m.path[m.k]);
    PartApart(Path(w.nodes, m.path[m.k]), m.ups, |w.nodes|);
  }

  lemma PartApart(p: seq<nat>, part: seq<nat>, n: nat)
    requires Apart(p, n) && 1 + |part| <= |p| && part == p[1..1 + |part|]
    ensures Apart(part, n) && Apart([p[0]] + part, n) && p[0] !in part
  {
    assert forall j :: 0 <= j < |part| ==> part[j] == p[j + 1];
    var all := [p[0]] + part;
    assert forall j :: 0 <= j < |all| ==> all[j] == p[j];
  }

  /** The context a state gathered leads to at the end. */
  function Top(w: Scene, m: Move): nat {
    if m.own then |w.nodes| + |m.ups| else if m.ups == [] then m.base else |w.nodes| + |m.ups| - 1
  }

  /** What is asked of a place made a context. */
  ghost predicate Gathered(w: Scene, text: seq<Byte>, m: Move) {
    && Starts(w, m) && SuccOf(w.nodes, m.path[m.k], m.x as int) == Raw(m.r) && m.found == Child(Top(w, m))
    && (m.ups, Some(m.base)) == Gather(w.nodes, m.path[m.k], m.x as int, m.r)
    && (Made(m) > 0 ==> m.r < |text| && m.b == text[m.r])
  }

  function Makers(m: Move): seq<nat>
    requires m.k < |m.path|
  {
    if m.own then [m.path[m.k]] + m.ups else m.ups
  }

  /** The states that new contexts were made for lead to them. */
  lemma GrownOld(w: Scene, m: Move, one: State, n: seq<Node>, i: nat)
    requires m.k < |m.path| && m.path[m.k] < |w.nodes| && m.path[m.k] !in m.ups && m.found == Child(Top(w, m))
    requires Grown(w.nodes, Makers(m), m.base, m.x as int, one, Raw(m.r + 1), n)
    ensures TurnOld(w, if m.own then n else SetSucc(n, m.path[m.k], m.x as int, m.found), m, i)
  {
    hide GrownNew;
    var at := m.path[m.k];
    if i < |w.nodes| {
      assert GrownSame(w.nodes, Makers(m), n, i);
      if i in m.ups {
        var j :| 0 <= j < |m.ups| && m.ups[j] == i;
        KidOf(w, m, one, n, j);
      } else if i == at {
        if m.own {
          assert GrownKid(w.nodes, Makers(m), m.x as int, n, 0);
        }
      }
    }
  }

  lemma KidOf(w: Scene, m: Move, one: State, n: seq<Node>, j: nat)
    requires m.k < |m.path| && j < |m.ups|
    requires Grown(w.nodes, Makers(m), m.base, m.x as int, one, Raw(m.r + 1), n)
    ensures m.ups[j] < |w.nodes| <= |n|
    ensures n[m.ups[j]] ==
            w.nodes[m.ups[j]].(succ := w.nodes[m.ups[j]].succ[m.x as int := Child(Kid(w.nodes, m.ups, j))])
  {
    hide GrownNew;
    hide GrownSame;
    var at := if m.own then j + 1 else j;
    assert Makers(m)[at] == m.ups[j] && Kid(w.nodes, Makers(m), at) == Kid(w.nodes, m.ups, j);
    assert GrownKid(w.nodes, Makers(m), m.x as int, n, at);
  }

  lemma GrownAll(w: Scene, m: Move, one: State, n: seq<Node>)
    requires Starts(w, m) && m.path[m.k] < |w.nodes| && m.path[m.k] !in m.ups && m.found == Child(Top(w, m))
    requires one.symbol == m.b && 1 <= one.freq <= 128
    requires Grown(w.nodes, Makers(m), m.base, m.x as int, one, Raw(m.r + 1), n)
    ensures Turns(w, if m.own then n else SetSucc(n, m.path[m.k], m.x as int, m.found), m)
  {
    hide Symbols;
    hide Sane;
    hide TurnOld;
    hide Path;
    var after := if m.own then n else SetSucc(n, m.path[m.k], m.x as int, m.found);
    forall i: nat ensures TurnOld(w, after, m, i) {
      GrownOld(w, m, one, n, i);
    }
    forall j: nat ensures NewMoved(w, w.(nodes := after), m, j) {
      assert GrownNew(w.nodes, n, m.base, one, Raw(m.r + 1), j);
    }
  }

  lemma BaseFits(w: Scene, base: nat, b: Byte)
    requires Sane(w) && base < |w.nodes|
    ensures w.nodes[base].ctx.states != [] && 1 <= UpFreq(w.nodes[base].ctx, b) <= 128
  {
    hide UpFreq;
    hide KeptContext;
    assert FitNode(w.nodes, base);
    UpFreqFits(w.nodes[base].ctx, b);
  }

  /** `CreateSuccessors` always succeeds, and makes exactly the contexts asked for. */
  lemma CreatesTurn(w: Scene, text: seq<Byte>, m: Move)
    requires Gathered(w, text, m)
    ensures m.path[m.k] < |w.nodes|
    ensures CreateSuccessors(w.nodes, text, m.path[m.k], m.x as int, m.r, !m.own).Some?
    ensures var (n, to) := CreateSuccessors(w.nodes, text, m.path[m.k], m.x as int, m.r, !m.own).value;
            to == Top(w, m) && Turns(w, if m.own then n else SetSucc(n, m.path[m.k], m.x as int, Child(to)), m)
  {
    hide Symbols;
    hide Sane;
    hide UpFreq;
    hide Turns;
    hide Path;
    hide Gather;
    hide Grow;
    hide Grown;
    var at, x := m.path[m.k], m.x as int;
    assert at < |w.nodes|;
    GatheredApart(w, m);
    BaseFits(w, m.base, m.b);
    var ps, one := Makers(m), State(m.b, UpFreq(w.nodes[m.base].ctx, m.b));
    GrowIs(w.nodes, ps, m.base, x, one, Raw(m.r + 1));
    var (n, to) := Grow(w.nodes, ps, m.base, x, one, Raw(m.r + 1));
    GrownAll(w, m, one, n);
    if ps == [] {
      assert Grow(w.nodes, ps, m.base, x, one, Raw(m.r + 1)) == (w.nodes, m.base) by {
        GrowNone(w.nodes, m.base, x, one, Raw(m.r + 1));
      }
    }
  }

  lemma GrowNone(nodes: seq<Node>, base: nat, x: int, one: State, succ: Succ)
    ensures Grow(nodes, [], base, x, one, succ) == (nodes, base)
  {
  }

  /** The place to be read lies inside the text, the symbol just put there included. */
  lemma GatherInside(w: Scene, m: Move, text: seq<Byte>)
    requires Starts(w, m) && SuccOf(w.nodes, m.path[m.k], m.x as int) == Raw(m.r)
    requires (m.ups, Some(m.base)) == Gather(w.nodes, m.path[m.k], m.x as int, m.r)
    requires if m.own then Depth(w.nodes, m.path[m.k]) < w.max else Depth(w.nodes, m.path[m.k]) == w.max
    requires text == w.text + [m.x] || (text == w.text && Depth(w.nodes, w.cur) == w.max)
    ensures Made(m) > 0 ==> m.r < |text|
  {
    hide Symbols;
    hide Depth;
    GatherIs(w, m.path[m.k], m.x as int, m.r);
  }

  /**
    The searches of `CreateSuccessors` end: every suffix gathered has the symbol found, and the context the new ones
    go above has the symbol read from the text. No more states are gathered than the order allows.
   */
  lemma SearchFinds(w: Scene, m: Move, text: seq<Byte>)
    requires Gathered(w, text, m)
    requires if m.own then Depth(w.nodes, m.path[m.k]) < w.max else Depth(w.nodes, m.path[m.k]) == w.max
    requires text == w.text + [m.x] || (text == w.text && Depth(w.nodes, w.cur) == w.max)
    ensures forall j :: 0 <= j < |m.ups| ==> Has(w.nodes, m.ups[j], m.x as int)
    ensures Made(m) > 0 ==> Has(w.nodes, m.base, m.b as int)
    ensures Made(m) <= w.max
  {
    hide Symbols;
    hide Depth;
    hide KeptContext;
    GatherIs(w, m.path[m.k], m.x as int, m.r);
    PathAt(w.nodes, w.cur, m.k);
  }

  /** The scene after an update of the model. */
  function After(w: Scene, turn: Turn, chain: seq<Context>, k: nat, x: Byte): (v: Scene)
    requires w.cur < |w.nodes| && |chain| == |Path(w.nodes, w.cur)| && k < |chain|
  {
    var path := Path(w.nodes, w.cur);
    Scene(SetAll(Write(turn.nodes, path, chain), path[..k], x, turn.passed), turn.text, turn.to, w.max)
  }

  /** What `UpdateModel` is called with. */
  ghost predicate Called(w: Scene, k: nat, x: Byte, orderFall: nat) {
    && Sane(w)
    && var path := Path(w.nodes, w.cur);
       && k < |path| && Has(w.nodes, path[k], x as int) && (forall j :: 0 <= j < k ==> !Has(w.nodes, path[j], x as int))
       && orderFall + Depth(w.nodes, path[k]) == w.max
       && (orderFall == 0 ==> !SuccOf(w.nodes, path[k], x as int).Child?)
  }

  /** A step by `x`, found after `k` contexts. */
  ghost predicate Moves(w: Scene, v: Scene, k: nat, x: Byte) {
    exists m: Move :: m.k == k && m.x == x && Starts(w, m) && Changes(w, v, m) && Leads(w, v, m)
  }

  ghost predicate Arrives(w: Scene, v: Scene, k: nat, x: Byte, orderFall: nat) {
    Sane(v) && v.max == w.max && orderFall + Depth(v.nodes, v.cur) == v.max && Moves(w, v, k, x)
  }

  /** Changes that are found to be a step. */
  lemma Arrived(w: Scene, n: seq<Node>, chain: seq<Context>, m: Move, v: Scene, orderFall: nat)
    requires Starts(w, m) && Turns(w, n, m) && Spreads(w, n, chain, v, m) && Leads(w, v, m)
    requires ChainLearns(Chain(w.nodes, w.cur), chain, m.k, m.x as int)
    requires var d := Depth(w.nodes, m.path[m.k]);
             w.max - orderFall == if SuccOf(w.nodes, m.path[m.k], m.x as int).Unset? then d else Longer(d, w.max)
    requires orderFall <= w.max
    ensures Arrives(w, v, m.k, m.x, orderFall)
  {
    hide Symbols;
    hide Depth;
    hide Turns;
    hide Spreads;
    hide ChainLearns;
    SpreadChanges(w, n, chain, v, m);
    MovesSane(w, v, m);
    CurFits(w, v, m);
    hide Sane;
    hide Changes;
    hide Leads;
    assert Moves(w, v, m.k, m.x);
  }

  lemma CalledFacts(w: Scene, k: nat, x: Byte, orderFall: nat)
    requires Called(w, k, x, orderFall)
    ensures Depth(w.nodes, w.cur) <= w.max && Depth(w.nodes, Path(w.nodes, w.cur)[k]) + k == Depth(w.nodes, w.cur)
    ensures orderFall == 0 ==> k == 0 && SuccOf(w.nodes, Path(w.nodes, w.cur)[k], x as int).Raw?
    ensures SuccOf(w.nodes, Path(w.nodes, w.cur)[k], x as int).Unset? ==> Path(w.nodes, w.cur)[k] == 0
    ensures match SuccOf(w.nodes, Path(w.nodes, w.cur)[k], x as int)
            case Child(id) => id < |w.nodes|
            case _ => true
  {
    hide Symbols;
    hide Continues;
    hide KeptContext;
    PathAt(w.nodes, w.cur, k);
    var at := Path(w.nodes, w.cur)[k];
    assert DepthOk(w, w.cur) && SuccOk(w, at, x as int);
    DepthStep(w.nodes, at);
  }

  lemma AtFullOrder(w: Scene, k: nat, x: Byte, chain: seq<Context>)
    requires Called(w, k, x, 0) && ChainLearns(Chain(w.nodes, w.cur), chain, k, x as int)
    ensures Advance(w.nodes, w.text, Path(w.nodes, w.cur)[k], x, k, 0).Some?
    ensures |chain| == |Path(w.nodes, w.cur)|
    ensures var turn := Advance(w.nodes, w.text, Path(w.nodes, w.cur)[k], x, k, 0).value;
            Arrives(w, After(w, turn, chain, k, x), k, x, turn.orderFall)
  {
    hide Symbols;
    hide Depth;
    hide Sane;
    hide Gather;
    hide Turns;
    hide CreateSuccessors;
    CalledFacts(w, k, x, 0);
    var path := Path(w.nodes, w.cur);
    var r := SuccOf(w.nodes, path[k], x as int).at;
    GatherSome(w, path[k], x, r);
    var (ups, base) := Gather(w.nodes, path[k], x as int, r);
    var m0 := Move(path, k, x, Unset, Unset, ups, false, base.value, r, if r < |w.text| then w.text[r] else 0);
    var m := m0.(found := Child(Top(w, m0)));
    GatherInside(w, m, w.text);
    CreatesTurn(w, w.text, m);
    GatheredApart(w, m);
    var turn := Advance(w.nodes, w.text, path[k], x, k, 0).value;
    var v := After(w, turn, chain, k, x);
    TurnSize(w, turn.nodes, m);
    Arrived(w, turn.nodes, chain, m, v, 0);
  }

  /** No new context, and at most the successor of the found state changed. */
  lemma PlainTurns(w: Scene, n: seq<Node>, m: Move)
    requires m.ups == [] && !m.own && m.k < |m.path| && !m.found.Unset?
    requires || (n == w.nodes && SuccOf(n, m.path[m.k], m.x as int) == m.found)
             || n == SetSucc(w.nodes, m.path[m.k], m.x as int, m.found)
    ensures Turns(w, n, m)
  {
    forall i: nat ensures TurnOld(w, n, m, i) {
    }
  }

  lemma TurnSize(w: Scene, n: seq<Node>, m: Move)
    requires Turns(w, n, m)
    ensures |n| == |w.nodes| + Made(m)
  {
  }

  /** Below full order the root has no successor yet: the text is its successor. */
  lemma AtRoot(w: Scene, k: nat, x: Byte, orderFall: nat, chain: seq<Context>)
    requires Called(w, k, x, orderFall) && ChainLearns(Chain(w.nodes, w.cur), chain, k, x as int) && orderFall != 0
    requires SuccOf(w.nodes, Path(w.nodes, w.cur)[k], x as int).Unset?
    ensures Advance(w.nodes, w.text, Path(w.nodes, w.cur)[k], x, k, orderFall).Some?
    ensures |chain| == |Path(w.nodes, w.cur)|
    ensures var turn := Advance(w.nodes, w.text, Path(w.nodes, w.cur)[k], x, k, orderFall).value;
            Arrives(w, After(w, turn, chain, k, x), k, x, turn.orderFall)
  {
    hide Symbols;
    hide Depth;
    hide Sane;
    hide Turns;
    hide Leads;
    hide After;
    hide Spreads;
    hide Path;
    CalledFacts(w, k, x, orderFall);
    var path, end := Path(w.nodes, w.cur), Raw(|w.text| + 1);
    var turn := Turn(SetSucc(w.nodes, path[k], x as int, end), w.text + [x], path[k], orderFall, end);
    assert Advance(w.nodes, w.text, path[k], x, k, orderFall) == Some(turn);
    hide Advance;
    var m := Move(path, k, x, end, end, [], false, 0, 0, 0);
    PlainTurns(w, turn.nodes, m);
    StepFits(w, turn.nodes, turn, chain, m);
    var v := After(w, turn, chain, k, x);
    AfterCur(w, turn, chain, k, x);
    RootLeads(w, v, m);
    Arrived(w, turn.nodes, chain, m, v, orderFall);
  }

  lemma RootLeads(w: Scene, v: Scene, m: Move)
    requires Starts(w, m) && SuccOf(w.nodes, m.path[m.k], m.x as int).Unset? && m.path[m.k] == v.cur < |v.nodes|
    requires v.text == w.text + [m.x] && m.found == m.passed == Raw(|v.text|) && Made(m) == 0
    requires Depth(w.nodes, m.path[m.k]) < w.max
    ensures Leads(w, v, m)
  {
    hide Sane;
    hide Depth;
    hide Symbols;
  }

  /** The text and the successor of the contexts passed are as they must be. */
  lemma SteppedLeads(w: Scene, m: Move, n: seq<Node>, to: nat, orderFall: nat, chain: seq<Context>, v: Scene)
    requires Starts(w, m) && 0 < orderFall && orderFall + Depth(w.nodes, m.path[m.k]) == w.max
    requires Depth(w.nodes, w.cur) <= w.max && Depth(w.nodes, m.path[m.k]) + m.k == Depth(w.nodes, w.cur)
    requires var turn := Stepped(n, w.text, w.text + [m.x], to, m.k, orderFall - 1);
             && |chain| == |m.path| && v == After(w, turn, chain, m.k, m.x) && m.passed == turn.passed
    requires to < |v.nodes| && m.found == Child(to) && Found(w, v, m)
    requires !SuccOf(w.nodes, m.path[m.k], m.x as int).Unset?
    ensures Leads(w, v, m)
  {
    hide Sane;
    hide Found;
    hide Depth;
    hide Symbols;
  }

  lemma StepFits(w: Scene, n: seq<Node>, turn: Turn, chain: seq<Context>, m: Move)
    requires Starts(w, m) && |chain| == |m.path| && turn.nodes == n && m.passed == turn.passed
    ensures Spreads(w, n, chain, After(w, turn, chain, m.k, m.x), m)
    ensures |After(w, turn, chain, m.k, m.x).nodes| == |n|
  {
    hide Sane;
  }

  /** The successor is a context already. */
  lemma ToChild(w: Scene, k: nat, x: Byte, orderFall: nat, chain: seq<Context>)
    requires Called(w, k, x, orderFall) && ChainLearns(Chain(w.nodes, w.cur), chain, k, x as int) && orderFall != 0
    requires SuccOf(w.nodes, Path(w.nodes, w.cur)[k], x as int).Child?
    ensures Advance(w.nodes, w.text, Path(w.nodes, w.cur)[k], x, k, orderFall).Some?
    ensures |chain| == |Path(w.nodes, w.cur)|
    ensures var turn := Advance(w.nodes, w.text, Path(w.nodes, w.cur)[k], x, k, orderFall).value;
            Arrives(w, After(w, turn, chain, k, x), k, x, turn.orderFall)
  {
    hide Symbols;
    hide Depth;
    hide Sane;
    hide Turns;
    hide Leads;
    hide After;
    hide Spreads;
    CalledFacts(w, k, x, orderFall);
    var path := Path(w.nodes, w.cur);
    var id := SuccOf(w.nodes, path[k], x as int).id;
    var turn := Stepped(w.nodes, w.text, w.text + [x], id, k, orderFall - 1);
    assert Advance(w.nodes, w.text, path[k], x, k, orderFall) == Some(turn);
    hide Advance;
    var m := Move(path, k, x, Child(id), turn.passed, [], false, 0, 0, 0);
    PlainTurns(w, turn.nodes, m);
    StepFits(w, turn.nodes, turn, chain, m);
    var v := After(w, turn, chain, k, x);
    assert v.cur == id by {
      AfterCur(w, turn, chain, k, x);
    }
    SteppedLeads(w, m, w.nodes, id, orderFall, chain, v);
    Arrived(w, turn.nodes, chain, m, v, orderFall - 1);
  }

  lemma AfterCur(w: Scene, turn: Turn, chain: seq<Context>, k: nat, x: Byte)
    requires w.cur < |w.nodes| && |chain| == |Path(w.nodes, w.cur)| && k < |chain|
    ensures After(w, turn, chain, k, x).cur == turn.to && After(w, turn, chain, k, x).text == turn.text
  {
  }

  /** The successor is a place in the text, made a context with all that share it. */
  lemma ToPlace(w: Scene, k: nat, x: Byte, orderFall: nat, chain: seq<Context>)
    requires Called(w, k, x, orderFall) && ChainLearns(Chain(w.nodes, w.cur), chain, k, x as int) && orderFall != 0
    requires SuccOf(w.nodes, Path(w.nodes, w.cur)[k], x as int).Raw?
    ensures Advance(w.nodes, w.text, Path(w.nodes, w.cur)[k], x, k, orderFall).Some?
    ensures |chain| == |Path(w.nodes, w.cur)|
    ensures var turn := Advance(w.nodes, w.text, Path(w.nodes, w.cur)[k], x, k, orderFall).value;
            Arrives(w, After(w, turn, chain, k, x), k, x, turn.orderFall)
  {
    hide Symbols;
    hide Depth;
    hide Sane;
    hide Gather;
    hide Turns;
    hide CreateSuccessors;
    hide Leads;
    hide After;
    hide Spreads;
    hide Path;
    CalledFacts(w, k, x, orderFall);
    var path, longer := Path(w.nodes, w.cur), w.text + [x];
    var r := SuccOf(w.nodes, path[k], x as int).at;
    GatherSome(w, path[k], x, r);
    var (ups, base) := Gather(w.nodes, path[k], x as int, r);
    var m0 := Move(path, k, x, Unset, Unset, ups, true, base.value, r, if r < |longer| then longer[r] else 0);
    var m1 := m0.(found := Child(Top(w, m0)));
    GatherInside(w, m1, longer);
    CreatesTurn(w, longer, m1);
    var (n, to) := CreateSuccessors(w.nodes, longer, path[k], x as int, r, false).value;
    var turn := Stepped(n, w.text, longer, to, k, orderFall - 1);
    assert Advance(w.nodes, w.text, path[k], x, k, orderFall) == Some(turn);
    hide Advance;
    var m := m1.(passed := turn.passed);
    TurnsPassed(w, n, m1, m);
    TurnSize(w, n, m);
    StepFits(w, n, turn, chain, m);
    var v := After(w, turn, chain, k, x);
    AfterCur(w, turn, chain, k, x);
    SteppedLeads(w, m, n, to, orderFall, chain, v);
    Arrived(w, n, chain, m, v, orderFall - 1);
  }

  lemma TurnsPassed(w: Scene, n: seq<Node>, m: Move, now: Move)
    requires Turns(w, n, m) && now == m.(passed := now.passed)
    ensures Turns(w, n, now)
  {
    hide Symbols;
    forall i: nat ensures TurnOld(w, n, now, i) {
      assert TurnOld(w, n, m, i);
    }
    forall j: nat ensures NewMoved(w, w.(nodes := n), now, j) {
      assert NewMoved(w, w.(nodes := n), m, j);
    }
  }

  /** `UpdateModel` always arrives at a sane tree: no search of it runs past its context. */
  lemma AdvanceArrives(w: Scene, k: nat, x: Byte, orderFall: nat, chain: seq<Context>)
    requires Called(w, k, x, orderFall) && ChainLearns(Chain(w.nodes, w.cur), chain, k, x as int)
    ensures Advance(w.nodes, w.text, Path(w.nodes, w.cur)[k], x, k, orderFall).Some?
    ensures |chain| == |Path(w.nodes, w.cur)|
    ensures var turn := Advance(w.nodes, w.text, Path(w.nodes, w.cur)[k], x, k, orderFall).value;
            Arrives(w, After(w, turn, chain, k, x), k, x, turn.orderFall)
  {
    hide Advance;
    hide Sane;
    hide Arrives;
    hide Depth;
    if orderFall == 0 {
      AtFullOrder(w, k, x, chain);
    } else {
      match SuccOf(w.nodes, Path(w.nodes, w.cur)[k], x as int)
      case Unset => AtRoot(w, k, x, orderFall, chain);
      case Child(_) => ToChild(w, k, x, orderFall, chain);
      case Raw(_) => ToPlace(w, k, x, orderFall, chain);
    }
  }

  lemma GatherSome(w: Scene, c: nat, x: Byte, r: nat)
    requires Sane(w) && Has(w.nodes, c, x as int) && SuccOf(w.nodes, c, x as int) == Raw(r)
    ensures Gather(w.nodes, c, x as int, r).1.Some?
  {
    hide Symbols;
    hide Sane;
    GatherIs(w, c, x as int, r);
  }

  // ---------- the model between two symbols ----------

  function SceneOf<T>(t: Tree<T>): Scene {
    Scene(t.nodes, t.text, t.cur, t.maxOrder)
  }

  /** Tree and side state are sane, and OrderFall is what MinContext lacks to the full order. */
  ghost predicate FitTree<T>(t: Tree<T>) {
    Sane(SceneOf(t)) && UsableSide(t.side) && t.side.orderFall + Depth(t.nodes, t.cur) == t.maxOrder
  }

  lemma StartFits<T>(maxOrder: nat, before: Side, memory: T)
    requires 0 < maxOrder && before.hiBitsFlag in {0, 8}
    ensures FitTree(StartTree(maxOrder, before, memory))
  {
    StartFit(maxOrder, before, memory);
    var t := StartTree(maxOrder, before, memory);
    var m := StartModel(maxOrder, before, memory);
    assert m.chain[0] == t.nodes[0].ctx && m.side == t.side;
    hide StartSide;
    hide UsableSide;
    hide Kept;
    RootAlone(t.nodes, maxOrder);
  }

  lemma RootAlone(nodes: seq<Node>, max: nat)
    requires |nodes| == 1 && nodes[0].suffix.None? && nodes[0].succ == map[] && KeptContext(nodes[0].ctx)
    requires |nodes[0].ctx.states| == 256 && 0 < max
    ensures Sane(Scene(nodes, [], 0, max)) && Depth(nodes, 0) == 0
  {
    hide KeptContext;
    hide Symbols;
    var w := Scene(nodes, [], 0, max);
    forall i: nat ensures LinkOk(nodes, i) && FitNode(nodes, i) && DepthOk(w, i) {
    }
    forall i: nat, x: int ensures SuccOk(w, i, x) {
    }
  }

  /** At full order the model may go to any context, as nothing hangs on where the text ends. */
  lemma CurMoves(w: Scene, to: nat)
    requires Sane(w) && to < |w.nodes| && Depth(w.nodes, w.cur) == w.max
    ensures Sane(w.(cur := to))
  {
    hide Symbols;
    hide Depth;
    hide SuccOk;
    hide KeptContext;
    var v := w.(cur := to);
    forall i: nat ensures SameSuffix(w.nodes, v.nodes, i) && KnowsMore(w, v, i) && DepthOk(v, i) {
      assert DepthOk(w, i);
    }
    forall i: nat, x: int ensures SuccStep(w, v, i, x) {
    }
    forall i: nat, x: int ensures SuccOk(v, i, x) {
      NoHas(v, i, x);
      if Has(v.nodes, i, x) {
        OldSucc(w, v, i, x);
      }
    }
  }

  lemma SideFits<T>(t: Tree<T>, r: Result)
    requires Updatable(t, r) && UsableSide(r.side)
    ensures var side := SideAfter(t, r);
            UsableSide(side) && side.orderFall == r.side.orderFall && side.initEsc == r.side.initEsc
  {
    NotedUsable(r.side, r.how, Chain(t.nodes, t.cur)[r.level], StartRun(t.maxOrder));
  }

  /** What the coder found, as the tree sees it. */
  ghost predicate FoundIn<T>(t: Tree<T>, r: Result) {
    && FitTree(t) && r.Found? && 0 <= r.symbol < 256
    && Chain(t.nodes, t.cur) != [] && Sensible(Chain(t.nodes, t.cur), t.side, r)
  }

  lemma FoundThere<T>(t: Tree<T>, r: Result)
    requires FoundIn(t, r)
    ensures var chain, path := Chain(t.nodes, t.cur), Path(t.nodes, t.cur);
            && KeptChain(chain) && |chain| == |path| > r.level && |chain[|chain| - 1].states| == 256
            && (|chain| == 1 ==> t.side.orderFall != 0) && Fell(t.side, r) && UsableSide(r.side)
            && (forall j :: 0 <= j < r.level ==> r.symbol !in Symbols(chain[j].states))
            && r.side.orderFall + Depth(t.nodes, path[r.level]) == t.maxOrder
            && (r.side.orderFall == 0 ==> r.level == 0 && Depth(t.nodes, t.cur) == t.maxOrder)
            && (r.how != Escaped <==> r.level == 0)
            && (r.how == Escaped && |chain[0].states| == 1 ==> 0 < r.side.initEsc <= 25)
  {
    hide Symbols;
    hide KeptContext;
    hide Continues;
    ChainFits(t.nodes, t.cur);
    PathAt(t.nodes, t.cur, r.level);
  }

  /** FoundState, once its frequency and those around it are updated. */
  ghost predicate FitAt<T>(t: Tree<T>, k: nat, at: nat) {
    && Sane(SceneOf(t)) && UsableSide(t.side) && k < |Path(t.nodes, t.cur)| && at < |Chain(t.nodes, t.cur)[k].states|
    && t.side.orderFall + Depth(t.nodes, Path(t.nodes, t.cur)[k]) == t.maxOrder
    && var chain := Chain(t.nodes, t.cur);
       var x := chain[k].states[at].symbol as int;
       && (forall j :: 0 <= j < k ==> x !in Symbols(chain[j].states))
       && (k > 0 && |chain[0].states| == 1 ==> 0 < t.side.initEsc <= 25)
  }

  lemma StillLacks(was: seq<Context>, now: seq<Context>, full: bool, x: int, k: nat)
    requires ChainKeeps(was, now, full) && k <= |was| && forall j :: 0 <= j < k ==> x !in Symbols(was[j].states)
    ensures k <= |now| && forall j :: 0 <= j < k ==> x !in Symbols(now[j].states)
  {
    hide Symbols;
    hide KeptChain;
  }

  /** Update1, Update1_0, UpdateBin and Update2 keep the tree fit where they found the symbol. */
  lemma TouchFits<T>(mem: Memory<T>, t: Tree<T>, r: Result)
    requires FoundIn(t, r)
    ensures Updatable(t, r)
    ensures FitAt(Touch(mem, t, r), r.level, Touched(t, r).1)
    ensures var touched, (chain, at) := Touch(mem, t, r), Touched(t, r);
            && SameLinks(t.nodes, touched.nodes) && touched.cur == t.cur < |touched.nodes|
            && Chain(touched.nodes, touched.cur) == chain && r.level < |chain|
            && at < |chain[r.level].states| && chain[r.level].states[at].symbol == r.symbol
  {
    hide Sane;
    hide Sensible;
    hide Symbols;
    hide Touched;
    hide ChainKeeps;
    hide Learnable;
    hide Depth;
    hide UsableSide;
    hide KeptChain;
    hide Path;
    hide Chain;
    hide Write;
    hide SideAfter;
    hide SameLinks;
    hide SameSuffixes;
    hide SuccOf;
    FoundThere(t, r);
    TouchedKeeps(t, r);
    SideFits(t, r);
    var (chain, at) := Touched(t, r);
    var full, w := r.side.orderFall == 0, SceneOf(t);
    Rewritten(w, chain, full);
    StillLacks(Chain(t.nodes, t.cur), chain, full, r.symbol, r.level);
    var now := Touch(mem, t, r);
    assert SceneOf(now) == w.(nodes := now.nodes);
    LinksSame(w.nodes, now.nodes, 0, 0);
    DepthSame(w, SceneOf(now), Path(t.nodes, t.cur)[r.level]);
  }

  lemma LinksSame(a: seq<Node>, b: seq<Node>, i: nat, x: int)
    requires SameLinks(a, b)
    ensures SuccOf(a, i, x) == SuccOf(b, i, x) && SameSuffixes(a, b)
  {
    forall j: nat ensures SameSuffix(a, b, j) {
    }
  }

  lemma InSymbols(s: seq<State>, i: nat)
    requires i < |s|
    ensures s[i].symbol as int in Symbols(s)
  {
  }

  lemma ChainHas(nodes: seq<Node>, i: nat, j: nat, x: int)
    requires i < |nodes| && j < |Path(nodes, i)|
    ensures Has(nodes, Path(nodes, i)[j], x) <==> x in Symbols(Chain(nodes, i)[j].states)
  {
    hide Symbols;
  }

  /** The tree is as the rest of `UpdateModel` needs it, once the suffix took note. */
  lemma CalledAfter<T>(t: Tree<T>, k: nat, at: nat, chain: seq<Context>)
    requires FitAt(t, k, at) && ChainKeeps(Chain(t.nodes, t.cur), chain, false) && chain[k] == Chain(t.nodes, t.cur)[k]
    requires var x := chain[k].states[at].symbol;
             t.side.orderFall == 0 ==> !SuccOf(t.nodes, Path(t.nodes, t.cur)[k], x as int).Child?
    ensures |chain| == |Path(t.nodes, t.cur)|
    ensures var w := SceneOf(t).(nodes := Write(t.nodes, Path(t.nodes, t.cur), chain));
            && Called(w, k, chain[k].states[at].symbol, t.side.orderFall) && Chain(w.nodes, w.cur) == chain
            && Path(w.nodes, w.cur) == Path(t.nodes, t.cur) && SameLinks(t.nodes, w.nodes)
  {
    hide Symbols;
    hide ChainKeeps;
    hide Sane;
    hide Has;
    hide SameLinks;
    hide Depth;
    hide SuccOf;
    hide UsableSide;
    ChainSize(Chain(t.nodes, t.cur), chain, false);
    var w, x, path := SceneOf(t), chain[k].states[at].symbol, Path(t.nodes, t.cur);
    Rewritten(w, chain, false);
    var v := w.(nodes := Write(t.nodes, path, chain));
    LinksSame(w.nodes, v.nodes, path[k], x as int);
    DepthSame(w, v, path[k]);
    InSymbols(chain[k].states, at);
    ChainHas(v.nodes, v.cur, k, x as int);
    StillLacks(Chain(t.nodes, t.cur), chain, false, x as int, k);
    forall j | 0 <= j < k ensures !Has(v.nodes, path[j], x as int) {
      ChainHas(v.nodes, v.cur, j, x as int);
    }
  }

  lemma SideStays(s: Side, orderFall: nat)
    requires UsableSide(s)
    ensures UsableSide(s.(orderFall := orderFall)) && s.hiBitsFlag in {0, 8}
  {
  }

  lemma FitAtFacts<T>(t: Tree<T>, k: nat, at: nat)
    requires FitAt(t, k, at)
    ensures Pointed(t, k, at) && 0 < t.maxOrder
    ensures var chain := Chain(t.nodes, t.cur);
            KeptChain(chain) && |chain| == |Path(t.nodes, t.cur)| && |chain[|chain| - 1].states| == 256
    ensures t.side.orderFall == 0 ==> k == 0 && Depth(t.nodes, t.cur) == t.maxOrder
  {
    hide Symbols;
    hide KeptContext;
    hide Continues;
    hide UsableSide;
    ChainFits(t.nodes, t.cur);
    BumpedChain(Chain(t.nodes, t.cur), k, at);
    PathAt(t.nodes, t.cur, k);
    assert DepthOk(SceneOf(t), t.cur);
  }

  /** The tree once the suffix took note of what was found. */
  function BumpedScene<T>(t: Tree<T>, k: nat, at: nat): Scene
    requires Pointed(t, k, at)
  {
    var path, chain := Path(t.nodes, t.cur), Chain(t.nodes, t.cur);
    SceneOf(t).(nodes := Write(t.nodes, path, SuffixBumped(chain, k, chain[k].states[at])))
  }

  /** `UpdateModel` keeps the tree fit; unless memory runs out, it goes on by a step through it. */
  lemma UpdateFits<T>(t: Tree<T>, k: nat, at: nat, full: bool)
    requires FitAt(t, k, at)
    requires Pointed(t, k, at) ==>
               var x := Chain(t.nodes, t.cur)[k].states[at].symbol as int;
               t.side.orderFall == 0 ==> !SuccOf(t.nodes, Path(t.nodes, t.cur)[k], x).Child?
    ensures Pointed(t, k, at) && FitTree(UpdateModel(t, k, at, full))
    ensures SameLinks(t.nodes, BumpedScene(t, k, at).nodes)
    ensures !full ==> Moves(BumpedScene(t, k, at), SceneOf(UpdateModel(t, k, at, false)), k, Chain(t.nodes, t.cur)[k].states[at].symbol)
  {
    hide Moves;
    hide SameLinks;
    hide Sane;
    hide Symbols;
    hide Spread;
    hide SuffixBumped;
    hide Advance;
    hide ChainKeeps;
    hide ChainLearns;
    hide UsableSide;
    hide StartTree;
    hide Depth;
    hide Write;
    hide SetAll;
    hide KeptChain;
    hide Path;
    hide Chain;
    hide Called;
    FitAtFacts(t, k, at);
    var chain, path := Chain(t.nodes, t.cur), Path(t.nodes, t.cur);
    var x := chain[k].states[at].symbol;
    SideStays(t.side, 0);
    StartFits(t.maxOrder, t.side, t.memory);
    BumpedChain(chain, k, at);
    var bumped := SuffixBumped(chain, k, chain[k].states[at]);
    CalledAfter(t, k, at, bumped);
    SpreadLearns(chain, k, at, t.side);
    var w := SceneOf(t).(nodes := Write(t.nodes, path, bumped));
    AdvanceArrives(w, k, x, t.side.orderFall, Spread(chain, k, at, t.side));
    var turn := Advance(w.nodes, t.text, path[k], x, k, t.side.orderFall).value;
    SideStays(t.side, turn.orderFall);
  }

  /** At full order the model may go straight to a context, or else is updated. */
  lemma NextFits<T>(t: Tree<T>, at: nat, full: bool)
    requires FitAt(t, 0, at)
    ensures Pointed(t, 0, at) && FitTree(NextContext(t, at, full))
  {
    hide Symbols;
    hide Continues;
    hide KeptContext;
    hide UpdateModel;
    FitAtFacts(t, 0, at);
    var w, x := SceneOf(t), Chain(t.nodes, t.cur)[0].states[at].symbol as int;
    InSymbols(Chain(t.nodes, t.cur)[0].states, at);
    assert SuccOk(w, t.cur, x);
    hide SuccOk;
    if t.side.orderFall == 0 && SuccOf(t.nodes, t.cur, x).Child? {
      CurMoves(w, SuccOf(t.nodes, t.cur, x).id);
    } else {
      UpdateFits(t, 0, at, full);
    }
  }

  /** Every update of the model keeps it fit, the restart when memory runs out included. */
  lemma StepKeeps<T>(mem: Memory<T>, t: Tree<T>, r: Result)
    requires FoundIn(t, r)
    ensures FitTree(Step(mem, t, r))
  {
    hide FitTree;
    hide FitAt;
    hide Sensible;
    hide Touched;
    hide Touch;
    hide UpdateModel;
    hide NextContext;
    hide Pointed;
    hide Learnable;
    TouchFits(mem, t, r);
    var touched, at := Touch(mem, t, r), Touched(t, r).1;
    LevelIs(t, r);
    if r.how != Escaped {
      NextFits(touched, at, mem.full(t, r));
    } else {
      EscapedFits(mem, t, r, mem.full(t, r));
    }
  }

  lemma LevelIs<T>(t: Tree<T>, r: Result)
    requires FoundIn(t, r)
    ensures r.how != Escaped <==> r.level == 0
  {
    hide FitTree;
    hide Symbols;
    hide UsableSide;
  }

  /** After an escape the order is not full. */
  lemma EscapedFits<T>(mem: Memory<T>, t: Tree<T>, r: Result, full: bool)
    requires FoundIn(t, r) && Updatable(t, r) && r.how == Escaped
    requires FitAt(Touch(mem, t, r), r.level, Touched(t, r).1)
    ensures var touched, at := Touch(mem, t, r), Touched(t, r).1;
            Pointed(touched, r.level, at) && FitTree(UpdateModel(touched, r.level, at, full))
  {
    hide FitTree;
    hide FitAt;
    hide Touched;
    hide UpdateModel;
    hide Symbols;
    hide UsableSide;
    hide Pointed;
    SideFits(t, r);
    UpdateFits(Touch(mem, t, r), r.level, Touched(t, r).1, full);
  }

  // ---------- whole messages ----------

  /** Bytes, and perhaps an end marker behind them. */
  predicate Message(message: seq<int>) {
    forall i :: 0 <= i < |message| ==> 0 <= message[i] < 256 || (message[i] == -1 && i == |message| - 1)
  }

  lemma ViewUsable<T>(mem: Memory<T>, t: Tree<T>)
    requires FitTree(t)
    ensures t.cur < |t.nodes| && UsableChain(Chain(t.nodes, t.cur)) && UsableSide(t.side)
    ensures Codec(mem).view(t) == (Chain(t.nodes, t.cur), t.side)
  {
    hide UsableSide;
    hide UsableChain;
    hide KeptChain;
    ChainFits(t.nodes, t.cur);
    KeptChainUsable(Chain(t.nodes, t.cur));
  }

  lemma CodedFound<T>(t: Tree<T>, x: int)
    requires FitTree(t) && 0 <= x < 256 && t.cur < |t.nodes|
    requires UsableChain(Chain(t.nodes, t.cur)) && UsableSide(t.side)
    ensures FoundIn(t, Encode(Chain(t.nodes, t.cur), t.side, x).1)
  {
    hide Encode;
    hide Sane;
    hide UsableSide;
    hide UsableChain;
    hide Sensible;
    var chain := Chain(t.nodes, t.cur);
    EncodeSensible(chain, t.side, x);
    FindsItself(chain, t.side, x);
  }

  lemma {:induction false} TreeStays<T>(mem: Memory<T>, t: Tree<T>, message: seq<int>)
    requires FitTree(t) && Message(message)
    ensures StaysUsable(Codec(mem), t, message)
    decreases |message|
  {
    hide Encode;
    hide FitTree;
    hide UsableChain;
    hide UsableSide;
    hide Step;
    if message != [] {
      ViewUsable(mem, t);
      var r := Encode(Chain(t.nodes, t.cur), t.side, message[0]).1;
      if |message| == 1 {
        assert StaysUsable(Codec(mem), Codec(mem).update(t, r), message[1..]);
      } else {
        CodedFound(t, message[0]);
        StepKeeps(mem, t, r);
        TreeStays(mem, Step(mem, t, r), message[1..]);
      }
    }
  }

  /**
    The codec with its context tree: from a restarted model of any order, for every memory, every message of bytes, with
    or without an end marker, comes back from its flushed code.
   */
  lemma TreeRoundTrip<T>(mem: Memory<T>, maxOrder: nat, before: Side, memory: T, message: seq<int>)
    requires 0 < maxOrder && before.hiBitsFlag in {0, 8} && Message(message)
    ensures var p, t := Codec(mem), StartTree(maxOrder, before, memory);
            && StaysUsable(p, t, message) && RangeSpec.ValidSteps(EncodeAll(p, t, message))
            && var code := RangeSpec.Code(EncodeAll(p, t, message));
            var decoded := DecodeAll(p, t, |message|, RangeDecoder.Opened(code, 1, 0), code);
            |decoded| == |message| && forall i :: 0 <= i < |message| ==> SymbolOf(decoded[i]) == message[i]
  {
    hide FitTree;
    hide StartTree;
    StartFits(maxOrder, before, memory);
    TreeStays(mem, StartTree(maxOrder, before, memory), message);
    StreamRoundTrip(Codec(mem), StartTree(maxOrder, before, memory), message);
  }
}
