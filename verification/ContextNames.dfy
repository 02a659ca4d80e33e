/**
  What the contexts of the tree stand for: each has a name, the symbols that lead to it, and MinContext is always named
  by the last symbols coded.
 */
module ContextNames {
  import opened Options
  import opened Words
  import opened PpmdContext
  import opened SymbolSpec
  import opened FrequencySpec
  import opened AdaptiveModel
  import opened ModelTables
  import opened SymbolRoundTrip
  import opened ContextTree
  import opened ContextTreeLaws

  type Name = seq<int>

  predicate EndsWith(s: Name, t: Name) {
    |t| <= |s| && s[|s| - |t|..] == t
  }

  /** A name is as long as the context is deep, and without its first symbol it names the suffix. */
  ghost predicate NameOk(nodes: seq<Node>, names: seq<Name>, i: nat) {
    i < |nodes| == |names| ==>
      && |names[i]| == Depth(nodes, i)
      && (nodes[i].suffix.Some? && nodes[i].suffix.value < |names| && names[i] != [] ==>
            names[nodes[i].suffix.value] == names[i][1..])
  }

  /** A successor that is a context is named by the last symbols of the name and the symbol. */
  ghost predicate ChildOk(nodes: seq<Node>, names: seq<Name>, i: nat, a: int) {
    i < |nodes| == |names| && SuccOf(nodes, i, a).Child? ==>
      SuccOf(nodes, i, a).id < |names| && EndsWith(names[i] + [a], names[SuccOf(nodes, i, a).id])
  }

  ghost predicate Named(nodes: seq<Node>, names: seq<Name>) {
    |names| == |nodes| && (forall i :: NameOk(nodes, names, i)) && forall i, a :: ChildOk(nodes, names, i, a)
  }

  lemma EndsTrans(a: Name, b: Name, c: Name)
    requires EndsWith(a, b) && EndsWith(b, c)
    ensures EndsWith(a, c)
  {
    assert a[|a| - |b|..][|b| - |c|..] == a[|a| - |c|..];
  }

  lemma EndsSnoc(a: Name, b: Name, x: int)
    requires EndsWith(a, b)
    ensures EndsWith(a + [x], b + [x])
  {
    assert (a + [x])[|a| - |b|..] == a[|a| - |b|..] + [x];
  }

  lemma EndsTail(a: Name)
    requires a != []
    ensures EndsWith(a, a[1..])
  {
  }

  lemma EndsAll(a: Name, b: Name)
    requires EndsWith(a, b) && |a| == |b|
    ensures a == b
  {
    assert a[0..] == a;
  }

  // ---------- the suffix chain ----------

  lemma NameAt(nodes: seq<Node>, names: seq<Name>, i: nat)
    requires Named(nodes, names) && Linked(nodes) && i < |nodes|
    ensures |names| == |nodes| && |names[i]| == Depth(nodes, i)
    ensures i == 0 ==> names[i] == []
    ensures i > 0 ==>
              && nodes[i].suffix.Some? && nodes[i].suffix.value < i && names[i] != []
              && names[nodes[i].suffix.value] == names[i][1..]
  {
    hide Depth;
    assert NameOk(nodes, names, i);
    DepthStep(nodes, i);
  }

  /** Along the suffixes names only lose symbols at the front. */
  lemma {:induction false} PathEnds(nodes: seq<Node>, names: seq<Name>, i: nat, j: nat)
    requires Named(nodes, names) && Linked(nodes) && i < |nodes| && j < |Path(nodes, i)|
    ensures EndsWith(names[i], names[Path(nodes, i)[j]])
    decreases i
  {
    hide Named;
    NameAt(nodes, names, i);
    if j > 0 {
      DepthStep(nodes, i);
      var s := nodes[i].suffix.value;
      assert Path(nodes, i) == [i] + Path(nodes, s);
      PathEnds(nodes, names, s, j - 1);
      EndsTail(names[i]);
      EndsTrans(names[i], names[s], names[Path(nodes, i)[j]]);
    }
  }

  /** Where the search of CreateSuccessors ends: at the root, or where the suffix of the last state leads. */
  lemma {:induction false} GatherEnds(nodes: seq<Node>, c: nat, x: int, r: nat)
    requires Linked(nodes) && c < |nodes| && Gather(nodes, c, x, r).1.Some?
    ensures var (ps, base) := Gather(nodes, c, x, r);
            var last := if ps == [] then c else ps[|ps| - 1];
            && last < |nodes| && base.value < |nodes|
            && if last == 0 then base.value == 0
               else nodes[last].suffix.Some? && SuccOf(nodes, nodes[last].suffix.value, x) == Child(base.value)
    decreases c
  {
    assert LinkOk(nodes, c);
    if c > 0 {
      var s := nodes[c].suffix.value;
      if SuccOf(nodes, s, x) == Raw(r) {
        GatherEnds(nodes, s, x, r);
      }
    }
  }

  // ---------- one step ----------

  /** The states that new contexts are made for, from the last one gathered on. */
  function MakerOf(m: Move, j: nat): nat {
    if j < |m.ups| then m.ups[|m.ups| - 1 - j] else if m.k < |m.path| then m.path[m.k] else 0
  }

  function NewName(names: seq<Name>, m: Move, j: nat): Name {
    if MakerOf(m, j) < |names| then names[MakerOf(m, j)] + [m.x as int] else []
  }

  /** The names after a step: those of the new contexts are put behind. */
  function NewNames(names: seq<Name>, m: Move): (r: seq<Name>)
    ensures |r| == |names| + Made(m) && forall i :: 0 <= i < |names| ==> r[i] == names[i]
    ensures forall j :: 0 <= j < Made(m) ==> r[|names| + j] == NewName(names, m, j)
  {
    names + seq(Made(m), j requires 0 <= j < Made(m) => NewName(names, m, j))
  }

  /** A step from a tree with names. */
  ghost predicate Steps(w: Scene, v: Scene, m: Move, names: seq<Name>) {
    Starts(w, m) && Changes(w, v, m) && Leads(w, v, m) && Named(w.nodes, names)
  }

  lemma StepsLinked(w: Scene, v: Scene, m: Move, names: seq<Name>)
    requires Steps(w, v, m, names)
    ensures Linked(w.nodes) && Linked(v.nodes) && SameSuffixes(w.nodes, v.nodes) && |v.nodes| == |w.nodes| + Made(m)
    ensures m.k < |m.path| && m.path == Path(w.nodes, w.cur) && w.cur < |w.nodes| && m.path[m.k] < |w.nodes|
  {
    hide Sane;
    hide Has;
    SaneLinked(w);
    NewLinked(w, v, m);
  }

  /** When places in the text become contexts. */
  ghost predicate Gathers(w: Scene, v: Scene, m: Move, names: seq<Name>) {
    Steps(w, v, m, names) && m.k < |m.path| && SuccOf(w.nodes, m.path[m.k], m.x as int).Raw?
  }

  lemma GathersIs(w: Scene, v: Scene, m: Move, names: seq<Name>)
    requires Gathers(w, v, m, names)
    ensures m.path[m.k] < |w.nodes| && Linked(w.nodes)
    ensures var at := m.path[m.k];
            && m.base < |w.nodes| && Depth(w.nodes, m.base) + |m.ups| == Depth(w.nodes, at)
            && |m.ups| < |Path(w.nodes, at)| && m.ups == Path(w.nodes, at)[1..1 + |m.ups|]
            && (m.ups, Some(m.base)) == Gather(w.nodes, at, m.x as int, m.r)
  {
    hide Symbols;
    hide Continues;
    hide Sane;
    hide Named;
    hide Changes;
    hide Gather;
    StepsLinked(w, v, m, names);
    GatheredBase(w, v, m);
  }

  /** The makers stand on one path, in the other direction. */
  lemma MakerAt(w: Scene, v: Scene, m: Move, names: seq<Name>, j: nat)
    requires Gathers(w, v, m, names) && j <= |m.ups| && (j < Made(m) || j == 0)
    ensures m.path[m.k] < |w.nodes| && |m.ups| < |Path(w.nodes, m.path[m.k])| && m.base < |w.nodes|
    ensures var p := Path(w.nodes, m.path[m.k]);
            var maker := p[|m.ups| - j];
            && maker < |w.nodes| && (j < Made(m) ==> MakerOf(m, j) == maker)
            && Depth(w.nodes, maker) == Depth(w.nodes, m.base) + j
            && (j > 0 ==> w.nodes[maker].suffix == Some(p[|m.ups| - (j - 1)]))
  {
    hide Steps;
    hide Depth;
    hide Gather;
    GathersIs(w, v, m, names);
    var at := m.path[m.k];
    PathAt(w.nodes, at, |m.ups| - j);
    if j < |m.ups| {
      assert m.ups[|m.ups| - 1 - j] == Path(w.nodes, at)[|m.ups| - j];
    }
  }

  /** The base is named as the suffix of the first new context must be. */
  lemma BaseName(w: Scene, v: Scene, m: Move, names: seq<Name>)
    requires Gathers(w, v, m, names)
    ensures m.base < |names| == |w.nodes| && m.path[m.k] < |w.nodes| && |m.ups| < |Path(w.nodes, m.path[m.k])|
    ensures Path(w.nodes, m.path[m.k])[|m.ups|] < |names|
    ensures names[m.base] == (names[Path(w.nodes, m.path[m.k])[|m.ups|]] + [m.x as int])[1..]
  {
    hide Depth;
    hide Gather;
    hide Sane;
    hide Changes;
    hide Leads;
    hide Has;
    GathersIs(w, v, m, names);
    MakerAt(w, v, m, names, 0);
    var at, x := m.path[m.k], m.x as int;
    var last := Path(w.nodes, at)[|m.ups|];
    GatherEnds(w.nodes, at, x, m.r);
    assert last == if m.ups == [] then at else m.ups[|m.ups| - 1];
    NamesSize(w.nodes, names);
    TailName(w.nodes, names, last, m.base, x);
  }

  lemma TailName(nodes: seq<Node>, names: seq<Name>, last: nat, base: nat, x: int)
    requires Named(nodes, names) && Linked(nodes) && last < |nodes| && base < |nodes|
    requires Depth(nodes, base) == Depth(nodes, last)
    requires if last == 0 then base == 0
             else nodes[last].suffix.Some? && SuccOf(nodes, nodes[last].suffix.value, x) == Child(base)
    ensures names[base] == (names[last] + [x])[1..]
  {
    hide Depth;
    NameAt(nodes, names, last);
    NameAt(nodes, names, base);
    if last == 0 {
      assert ([] + [x])[1..] == [];
    } else {
      var s := nodes[last].suffix.value;
      assert ChildOk(nodes, names, s, x);
      hide Named;
      EndsAll(names[s] + [x], names[base]);
      assert (names[last] + [x])[1..] == names[last][1..] + [x];
    }
  }

  /** The name of the context below a new one, by the makers. */
  lemma NewTail(w: Scene, v: Scene, m: Move, names: seq<Name>, j: nat)
    requires Gathers(w, v, m, names) && j < Made(m)
    ensures MakerOf(m, j) < |names| && m.base < |names| == |w.nodes|
    ensures (names[MakerOf(m, j)] + [m.x as int])[1..]
         == if j == 0 then names[m.base] else NewName(names, m, j - 1)
    ensures |names[MakerOf(m, j)]| == Depth(w.nodes, m.base) + j
  {
    hide Depth;
    hide Gathers;
    hide Path;
    GathersNamed(w, v, m, names);
    MakerAt(w, v, m, names, j);
    var maker := MakerOf(m, j);
    NameAt(w.nodes, names, maker);
    BaseName(w, v, m, names);
    hide Named;
    if j > 0 {
      MakerAt(w, v, m, names, j - 1);
      assert (names[maker] + [m.x as int])[1..] == names[maker][1..] + [m.x as int];
    }
  }

  lemma GathersNamed(w: Scene, v: Scene, m: Move, names: seq<Name>)
    requires Gathers(w, v, m, names)
    ensures Named(w.nodes, names) && Linked(w.nodes) && |names| == |w.nodes|
  {
    StepsLinked(w, v, m, names);
  }

  /** The new contexts are named by their makers and the symbol. */
  lemma NewNameOk(w: Scene, v: Scene, m: Move, names: seq<Name>, j: nat)
    requires Gathers(w, v, m, names) && j < Made(m)
    ensures NameOk(v.nodes, NewNames(names, m), |w.nodes| + j)
  {
    hide Named;
    hide Depth;
    hide Gather;
    hide Sane;
    hide Leads;
    hide Starts;
    hide Has;
    hide NodeMoved;
    hide SuccMoved;
    hide Path;
    hide NewName;
    NewDepth(w, v, m, j);
    assert NewMoved(w, v, m, j);
    hide Changes;
    StepsLinked(w, v, m, names);
    NewTail(w, v, m, names, j);
    NewSize(names, m, j);
  }

  lemma NewSize(names: seq<Name>, m: Move, j: nat)
    requires MakerOf(m, j) < |names|
    ensures NewName(names, m, j) == names[MakerOf(m, j)] + [m.x as int]
  {
  }

  lemma OldNameOk(w: Scene, v: Scene, m: Move, names: seq<Name>, i: nat)
    requires Steps(w, v, m, names) && i < |w.nodes|
    ensures NameOk(v.nodes, NewNames(names, m), i)
  {
    hide Depth;
    hide Sane;
    hide Leads;
    hide Has;
    hide Changes;
    StepsLinked(w, v, m, names);
    NameAt(w.nodes, names, i);
    DepthSame(w, v, i);
    assert SameSuffix(w.nodes, v.nodes, i);
  }

  lemma AllNamesOk(w: Scene, v: Scene, m: Move, names: seq<Name>)
    requires Steps(w, v, m, names)
    ensures |v.nodes| == |NewNames(names, m)| && forall i :: NameOk(v.nodes, NewNames(names, m), i)
  {
    hide NewNames;
    hide NameOk;
    StepsLinked(w, v, m, names);
    var r := NewNames(names, m);
    NamesSize(w.nodes, names);
    forall i: nat ensures NameOk(v.nodes, r, i) {
      if i < |w.nodes| {
        OldNameOk(w, v, m, names, i);
      } else if i < |v.nodes| {
        MadeGathers(w, v, m, names);
        NewNameOk(w, v, m, names, i - |w.nodes|);
      } else {
        NoName(v.nodes, r, i);
      }
    }
  }

  lemma NamesSize(nodes: seq<Node>, names: seq<Name>)
    requires Named(nodes, names)
    ensures |names| == |nodes|
  {
  }

  lemma NoName(nodes: seq<Node>, names: seq<Name>, i: nat)
    requires |nodes| <= i
    ensures NameOk(nodes, names, i)
  {
  }

  lemma MadeGathers(w: Scene, v: Scene, m: Move, names: seq<Name>)
    requires Steps(w, v, m, names) && 0 < Made(m)
    ensures Gathers(w, v, m, names)
  {
    hide Sane;
    hide Changes;
    hide Depth;
    hide Named;
    hide Has;
    hide Gather;
  }

  /** MinContext is named by the end of what the found context stands for and the symbol. */
  lemma CurName(w: Scene, v: Scene, m: Move, names: seq<Name>)
    requires Steps(w, v, m, names)
    ensures m.k < |m.path| && m.path[m.k] < |names| && v.cur < |NewNames(names, m)|
    ensures EndsWith(names[m.path[m.k]] + [m.x as int], NewNames(names, m)[v.cur])
  {
    hide Depth;
    hide Has;
    hide NodeMoved;
    hide SuccMoved;
    hide NewMoved;
    hide Gather;
    hide NameOk;
    hide Path;
    hide ChildOk;
    CurFits(w, v, m);
    StepsLinked(w, v, m, names);
    NamesSize(w.nodes, names);
    var at, x := m.path[m.k], m.x as int;
    match SuccOf(w.nodes, at, x)
    case Unset => NameAt(w.nodes, names, at);
    case Child(id) => ChildName(w, v, m, names, id);
    case Raw(_) => PlaceName(w, v, m, names);
  }

  lemma ChildName(w: Scene, v: Scene, m: Move, names: seq<Name>, id: nat)
    requires Steps(w, v, m, names) && m.k < |m.path| && SuccOf(w.nodes, m.path[m.k], m.x as int) == Child(id)
    ensures m.path[m.k] < |names| == |w.nodes| && id < |names| && v.cur == id
    ensures EndsWith(names[m.path[m.k]] + [m.x as int], names[id])
  {
    hide Depth;
    hide Changes;
    hide Continues;
    hide Symbols;
    StepsLinked(w, v, m, names);
    SaneSucc(w, m.path[m.k], m.x as int);
    assert ChildOk(w.nodes, names, m.path[m.k], m.x as int);
  }

  lemma PlaceName(w: Scene, v: Scene, m: Move, names: seq<Name>)
    requires Gathers(w, v, m, names)
    ensures m.path[m.k] < |names| && v.cur < |NewNames(names, m)|
    ensures EndsWith(names[m.path[m.k]] + [m.x as int], NewNames(names, m)[v.cur])
  {
    hide Depth;
    hide Has;
    hide Changes;
    hide Gather;
    hide Sane;
    hide Named;
    hide EndsWith;
    GathersIs(w, v, m, names);
    GathersNamed(w, v, m, names);
    var at, x, r := m.path[m.k], m.x as int, NewNames(names, m);
    AtStart(w.nodes, at);
    if m.own {
      assert r[|names| + |m.ups|] == names[at] + [x];
      EndsSelf(names[at] + [x]);
    } else if m.ups != [] {
      var up := m.ups[0];
      assert up == Path(w.nodes, at)[1];
      PathEnds(w.nodes, names, at, 1);
      EndsSnoc(names[at], names[up], x);
      assert r[|names| + |m.ups| - 1] == names[up] + [x];
    } else {
      BaseName(w, v, m, names);
      assert Path(w.nodes, at)[0] == at;
      EndsTail(names[at] + [x]);
    }
  }

  lemma EndsSelf(a: Name)
    ensures EndsWith(a, a)
  {
  }

  lemma AtStart(nodes: seq<Node>, i: nat)
    requires i < |nodes|
    ensures Path(nodes, i)[0] == i
  {
  }

  /** The contexts passed have longer names with the same end. */
  lemma FrontEnds(w: Scene, v: Scene, m: Move, names: seq<Name>, j: nat)
    requires Steps(w, v, m, names) && j <= m.k
    ensures m.k < |m.path| && m.path[j] < |names| && m.path[m.k] < |names|
    ensures EndsWith(names[m.path[j]], names[m.path[m.k]])
  {
    hide Depth;
    hide Sane;
    hide Has;
    hide Changes;
    hide Leads;
    StepsLinked(w, v, m, names);
    PathAt(w.nodes, w.cur, j);
    PathEnds(w.nodes, names, m.path[j], m.k - j);
  }

  /** The successors of the symbol in the contexts on the way. */
  lemma FrontChild(w: Scene, v: Scene, m: Move, names: seq<Name>, j: nat)
    requires Steps(w, v, m, names) && j <= m.k
    ensures m.k < |m.path| && m.path[j] < |names| && v.cur < |NewNames(names, m)|
    ensures EndsWith(names[m.path[j]] + [m.x as int], NewNames(names, m)[v.cur])
  {
    hide Steps;
    hide EndsWith;
    hide NewNames;
    CurName(w, v, m, names);
    FrontEnds(w, v, m, names, j);
    EndsSnoc(names[m.path[j]], names[m.path[m.k]], m.x as int);
    EndsTrans(names[m.path[j]] + [m.x as int], names[m.path[m.k]] + [m.x as int], NewNames(names, m)[v.cur]);
  }

  /** A gathered state leads to its own new context. */
  lemma KidName(w: Scene, v: Scene, m: Move, names: seq<Name>, j: nat)
    requires Steps(w, v, m, names) && j < |m.ups| && m.ups[j] < |names|
    ensures Kid(w.nodes, m.ups, j) < |NewNames(names, m)|
    ensures NewNames(names, m)[Kid(w.nodes, m.ups, j)] == names[m.ups[j]] + [m.x as int]
  {
    hide Starts;
    hide Changes;
    hide Leads;
    var n := |m.ups| - 1 - j;
    assert Kid(w.nodes, m.ups, j) == |names| + n;
    assert NewName(names, m, n) == names[m.ups[j]] + [m.x as int];
  }

  lemma OldChildOk(w: Scene, v: Scene, m: Move, names: seq<Name>, i: nat, a: int)
    requires Steps(w, v, m, names) && i < |w.nodes|
    ensures ChildOk(v.nodes, NewNames(names, m), i, a)
  {
    hide Depth;
    hide Sane;
    hide Has;
    hide NodeMoved;
    hide NewMoved;
    hide NewNames;
    hide EndsWith;
    hide NameOk;
    hide Path;
    StepsLinked(w, v, m, names);
    CurFits(w, v, m);
    assert SuccMoved(w, v, m, i, a) && ChildOk(w.nodes, names, i, a);
    var r := NewNames(names, m);
    if a == m.x as int && i in Front(m) {
      var j :| 0 <= j < m.k && m.path[j] == i;
      FrontChild(w, v, m, names, j);
    } else if a == m.x as int && i == m.path[m.k] {
      FrontChild(w, v, m, names, m.k);
    } else if a == m.x as int && i in m.ups {
      var j :| 0 <= j < |m.ups| && m.ups[j] == i && SuccOf(v.nodes, i, a) == Child(Kid(w.nodes, m.ups, j));
      KidName(w, v, m, names, j);
      EndsSelf(names[i] + [a]);
    } else {
      assert SuccOf(v.nodes, i, a) == SuccOf(w.nodes, i, a);
      if SuccOf(w.nodes, i, a).Child? {
        OldChild(w, m, names, i, a);
      }
    }
  }

  lemma OldChild(w: Scene, m: Move, names: seq<Name>, i: nat, a: int)
    requires Named(w.nodes, names) && i < |w.nodes| && SuccOf(w.nodes, i, a).Child?
    ensures SuccOf(w.nodes, i, a).id < |names|
    ensures EndsWith(NewNames(names, m)[i] + [a], NewNames(names, m)[SuccOf(w.nodes, i, a).id])
  {
    assert ChildOk(w.nodes, names, i, a);
  }

  /** New contexts lead to places in the text only. */
  lemma NewChildOk(w: Scene, v: Scene, m: Move, names: seq<Name>, i: nat, a: int)
    requires Steps(w, v, m, names) && |w.nodes| <= i < |v.nodes|
    ensures ChildOk(v.nodes, NewNames(names, m), i, a)
  {
    hide Depth;
    hide Sane;
    hide Has;
    hide NodeMoved;
    hide SuccMoved;
    hide NewNames;
    StepsLinked(w, v, m, names);
    assert NewMoved(w, v, m, i - |w.nodes|);
  }

  /** A step keeps the names, gives new contexts theirs, and goes to a context named by the end of what was coded. */
  lemma StepNames(w: Scene, v: Scene, m: Move, names: seq<Name>, coded: Name)
    requires Steps(w, v, m, names) && w.cur < |names| && EndsWith(coded, names[w.cur])
    ensures Named(v.nodes, NewNames(names, m)) && v.cur < |NewNames(names, m)|
    ensures EndsWith(coded + [m.x as int], NewNames(names, m)[v.cur])
  {
    hide Steps;
    hide NameOk;
    hide EndsWith;
    var r := NewNames(names, m);
    AllNamesOk(w, v, m, names);
    forall i: nat, a: int ensures ChildOk(v.nodes, r, i, a) {
      if i < |w.nodes| {
        OldChildOk(w, v, m, names, i, a);
      } else if i < |v.nodes| {
        NewChildOk(w, v, m, names, i, a);
      }
    }
    hide ChildOk;
    hide NewNames;
    FrontChild(w, v, m, names, 0);
    StepsStart(w, v, m, names);
    EndsSnoc(coded, names[w.cur], m.x as int);
    EndsTrans(coded + [m.x as int], names[w.cur] + [m.x as int], r[v.cur]);
  }

  lemma StepsStart(w: Scene, v: Scene, m: Move, names: seq<Name>)
    requires Steps(w, v, m, names)
    ensures w.cur < |w.nodes| && m.path != [] && m.path[0] == w.cur
  {
    hide Sane;
    hide Changes;
    hide Leads;
    AtStart(w.nodes, w.cur);
  }

  // ---------- the model ----------

  /** Names hang on the links only. */
  lemma NamedLinks(a: seq<Node>, b: seq<Node>, names: seq<Name>)
    requires SameLinks(a, b) && Named(a, names)
    ensures Named(b, names)
  {
    hide Depth;
    forall i: nat ensures SameSuffix(a, b, i) {
    }
    forall i: nat ensures NameOk(b, names, i) {
      assert NameOk(a, names, i);
      if i < |a| {
        DepthLinks(a, b, i);
      }
    }
    forall i: nat, x: int ensures ChildOk(b, names, i, x) {
      assert ChildOk(a, names, i, x);
    }
  }

  lemma DepthLinks(a: seq<Node>, b: seq<Node>, i: nat)
    requires SameSuffixes(a, b) && i < |a|
    ensures Depth(a, i) == Depth(b, i)
  {
    PathSame(a, b, i);
  }

  /** MinContext is named by the last symbols coded. */
  ghost predicate Follows<T>(t: Tree<T>, names: seq<Name>, coded: Name) {
    Named(t.nodes, names) && t.cur < |names| && EndsWith(coded, names[t.cur])
  }

  lemma StartNamed<T>(maxOrder: nat, before: Side, memory: T, coded: Name)
    ensures Follows(StartTree(maxOrder, before, memory), [[]], coded)
  {
    var nodes := StartTree(maxOrder, before, memory).nodes;
    forall i: nat ensures NameOk(nodes, [[]], i) {
    }
    forall i: nat, x: int ensures ChildOk(nodes, [[]], i, x) {
    }
  }

  /** Update by update. */
  lemma UpdateNamed<T>(t: Tree<T>, k: nat, at: nat, full: bool, names: seq<Name>, coded: Name) returns (now: seq<Name>)
    requires FitAt(t, k, at) && Follows(t, names, coded)
    requires Pointed(t, k, at) ==>
               var x := Chain(t.nodes, t.cur)[k].states[at].symbol as int;
               t.side.orderFall == 0 ==> !SuccOf(t.nodes, Path(t.nodes, t.cur)[k], x).Child?
    ensures Pointed(t, k, at)
    ensures Follows(UpdateModel(t, k, at, full), now, coded + [Chain(t.nodes, t.cur)[k].states[at].symbol as int])
    ensures !full ==> names <= now
  {
    hide FitAt;
    hide FitTree;
    hide Named;
    hide EndsWith;
    hide UpdateModel;
    hide Starts;
    hide Changes;
    hide Leads;
    UpdateFits(t, k, at, full);
    var x := Chain(t.nodes, t.cur)[k].states[at].symbol;
    var v := UpdateModel(t, k, at, full);
    if full {
      FullStarts(t, k, at);
      now := [[]];
      StartNamed(t.maxOrder, t.side, t.memory, coded + [x as int]);
    } else {
      var w := BumpedScene(t, k, at);
      var m: Move :| m.k == k && m.x == x && Starts(w, m) && Changes(w, SceneOf(v), m) && Leads(w, SceneOf(v), m);
      NamedLinks(t.nodes, w.nodes, names);
      now := NewNames(names, m);
      StepNames(w, SceneOf(v), m, names, coded);
      assert names == now[..|names|];
    }
  }

  lemma FullStarts<T>(t: Tree<T>, k: nat, at: nat)
    requires Pointed(t, k, at)
    ensures UpdateModel(t, k, at, true) == StartTree(t.maxOrder, t.side, t.memory)
  {
  }

  lemma NextNamed<T>(t: Tree<T>, at: nat, full: bool, names: seq<Name>, coded: Name) returns (now: seq<Name>)
    requires FitAt(t, 0, at) && Follows(t, names, coded)
    ensures Pointed(t, 0, at)
    ensures Follows(NextContext(t, at, full), now, coded + [Chain(t.nodes, t.cur)[0].states[at].symbol as int])
    ensures !full ==> names <= now
  {
    hide FitTree;
    hide UpdateModel;
    hide Sane;
    hide Depth;
    hide NameOk;
    hide EndsWith;
    FitAtFacts(t, 0, at);
    AtStart(t.nodes, t.cur);
    var x := Chain(t.nodes, t.cur)[0].states[at].symbol as int;
    if t.side.orderFall == 0 && SuccOf(t.nodes, t.cur, x).Child? {
      now := names;
      assert ChildOk(t.nodes, names, t.cur, x);
      EndsSnoc(coded, names[t.cur], x);
      EndsTrans(coded + [x], names[t.cur] + [x], names[SuccOf(t.nodes, t.cur, x).id]);
    } else {
      now := UpdateNamed(t, 0, at, full, names, coded);
    }
  }

  /** After every symbol MinContext is named by the last ones coded; unless memory runs out, no context is lost. */
  lemma StepNamed<T>(mem: Memory<T>, t: Tree<T>, r: Result, names: seq<Name>, coded: Name) returns (now: seq<Name>)
    requires FoundIn(t, r) && Follows(t, names, coded)
    ensures Follows(Step(mem, t, r), now, coded + [r.symbol])
    ensures !mem.full(t, r) ==> names <= now
  {
    hide FitTree;
    hide FitAt;
    hide Sensible;
    hide Touched;
    hide Touch;
    hide UpdateModel;
    hide NextContext;
    hide Pointed;
    hide Learnable;
    hide Named;
    hide EndsWith;
    TouchFits(mem, t, r);
    var touched, at := Touch(mem, t, r), Touched(t, r).1;
    NamedLinks(t.nodes, touched.nodes, names);
    LevelIs(t, r);
    if r.how != Escaped {
      now := NextNamed(touched, at, mem.full(t, r), names, coded);
    } else {
      EscapedFits(mem, t, r, mem.full(t, r));
      EscapeNotFull(t, r);
      TouchOrder(mem, t, r);
      now := UpdateNamed(touched, r.level, at, mem.full(t, r), names, coded);
    }
  }

  /** An escape leaves the order below full. */
  lemma EscapeNotFull<T>(t: Tree<T>, r: Result)
    requires FoundIn(t, r) && r.how == Escaped
    ensures r.side.orderFall != 0
  {
    hide Symbols;
    hide UsableSide;
    hide Sane;
    hide Depth;
  }

  lemma TouchOrder<T>(mem: Memory<T>, t: Tree<T>, r: Result)
    requires FoundIn(t, r) && Updatable(t, r)
    ensures Touch(mem, t, r).side.orderFall == r.side.orderFall
  {
    hide FitTree;
    hide Touched;
    hide Symbols;
    NotedOrder(r.side, r.how, Chain(t.nodes, t.cur)[r.level], StartRun(t.maxOrder));
  }

  // ---------- whole messages ----------

  /** The tree after a message of bytes. */
  ghost function Reached<T>(mem: Memory<T>, t: Tree<T>, message: seq<int>): Tree<T>
    requires FitTree(t) && Message(message)
    decreases |message|
  {
    if message == [] || message[0] == -1 then t
    else
      ViewUsable(mem, t);
      CodedFound(t, message[0]);
      var r := Encode(Chain(t.nodes, t.cur), t.side, message[0]).1;
      StepKeeps(mem, t, r);
      Reached(mem, Step(mem, t, r), message[1..])
  }

  lemma {:induction false} ReachedNamed<T>(mem: Memory<T>, t: Tree<T>, message: seq<int>, names: seq<Name>, coded: Name)
    returns (now: seq<Name>)
    requires FitTree(t) && Message(message) && Follows(t, names, coded) && -1 !in message
    ensures Follows(Reached(mem, t, message), now, coded + message) && FitTree(Reached(mem, t, message))
    decreases |message|
  {
    hide FitTree;
    hide Step;
    hide Follows;
    hide Encode;
    hide UsableChain;
    hide UsableSide;
    if message == [] {
      now := names;
      assert coded + [] == coded;
    } else {
      ViewUsable(mem, t);
      CodedFound(t, message[0]);
      var r := Encode(Chain(t.nodes, t.cur), t.side, message[0]).1;
      StepKeeps(mem, t, r);
      FindsItself(Chain(t.nodes, t.cur), t.side, message[0]);
      var next := StepNamed(mem, t, r, names, coded);
      now := ReachedNamed(mem, Step(mem, t, r), message[1..], next, coded + [message[0]]);
      assert coded + [message[0]] + message[1..] == coded + message;
    }
  }

  /**
    From a restarted model of any order, for every memory: after any bytes MinContext is the context whose name is the
    last of them, as many as the full order less OrderFall; and so it is for all successors in the tree.
   */
  lemma MinContextNamed<T>(mem: Memory<T>, maxOrder: nat, before: Side, memory: T, message: seq<int>)
    returns (names: seq<Name>)
    requires 0 < maxOrder && before.hiBitsFlag in {0, 8} && Message(message) && -1 !in message
    ensures FitTree(StartTree(maxOrder, before, memory))
    ensures var t := Reached(mem, StartTree(maxOrder, before, memory), message);
            && Named(t.nodes, names) && t.cur < |names| && EndsWith(message, names[t.cur])
            && |names[t.cur]| + t.side.orderFall == t.maxOrder
  {
    hide StartTree;
    hide Reached;
    hide FitTree;
    hide Follows;
    hide Named;
    hide EndsWith;
    StartFits(maxOrder, before, memory);
    StartNamed(maxOrder, before, memory, []);
    names := ReachedNamed(mem, StartTree(maxOrder, before, memory), message, [[]], []);
    assert [] + message == message;
    NameLength(Reached(mem, StartTree(maxOrder, before, memory), message), names, message);
  }

  lemma NameLength<T>(t: Tree<T>, names: seq<Name>, coded: Name)
    requires FitTree(t) && Follows(t, names, coded)
    ensures Named(t.nodes, names) && t.cur < |names| && EndsWith(coded, names[t.cur])
    ensures |names[t.cur]| + t.side.orderFall == t.maxOrder
  {
    hide Sane;
    hide UsableSide;
    hide Depth;
    assert NameOk(t.nodes, names, t.cur);
  }
}
