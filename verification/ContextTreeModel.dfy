/** The context tree of PPMd7 updated in place: `CreateSuccessors`, `UpdateModel` and `NextContext`, loop by loop. */
module ContextTreeModel {
  import opened Options
  import opened Words
  import opened PpmdContext
  import opened SymbolSpec
  import opened FrequencySpec
  import opened AdaptiveModel
  import opened ModelTables
  import opened ContextTree
  import opened ContextTreeLaws

  class Model {
    var nodes: seq<Node>
    var text: seq<Byte>
    var minContext: nat
    var maxContext: nat
    var side: Side
    const maxOrder: nat

    function Value(): Tree<()>
      reads this
    {
      Tree(nodes, text, maxContext, side, maxOrder, ())
    }

    /** Ppmd7_Init. */
    constructor (maxOrder: nat, before: Side)
      requires 0 < maxOrder && before.hiBitsFlag in {0, 8}
      ensures Value() == StartTree(maxOrder, before, ()) && FitTree(Value()) && minContext == maxContext
    {
      this.maxOrder := maxOrder;
      nodes, text := [Node(Context(StartStates(256), 257), map[], None)], [];
      minContext, maxContext := 0, 0;
      side := StartSide(maxOrder, before);
      StartFits(maxOrder, before, ());
    }

    /** The contexts and the side state are as after Init; the text is empty. */
    method RestartModel()
      modifies this
      ensures Value() == StartTree(maxOrder, old(side), ()) && minContext == maxContext
    {
      nodes, text := [Node(Context(StartStates(256), 257), map[], None)], [];
      minContext, maxContext := 0, 0;
      side := StartSide(maxOrder, side);
    }

    /** One turn of the search. */
    static lemma GatherStep(nodes: seq<Node>, c: nat, x: int, r: nat)
      requires c < |nodes|
      ensures var s := nodes[c].suffix;
              if s.None? || c <= s.value then Gather(nodes, c, x, r) == ([], Some(c))
              else
                var up := SuccOf(nodes, s.value, x);
                if up != Raw(r) then Gather(nodes, c, x, r) == ([], if up.Child? && up.id < |nodes| then Some(up.id) else None)
                else
                  s.value < |nodes| && Gather(nodes, c, x, r) ==
                                       ([s.value] + Gather(nodes, s.value, x, r).0, Gather(nodes, s.value, x, r).1)
    {
    }

    /** Goes up the suffixes of MinContext as long as the symbol leads to the same place in the text. */
    method GatherUp(x: Byte, r: nat, skip: bool) returns (ps: seq<nat>, base: Option<nat>)
      requires minContext < |nodes|
      ensures var g := Gather(nodes, minContext, x as int, r);
              ps == (if skip then g.0 else [minContext] + g.0) && base == g.1
    {
      hide Gather;
      hide SuccOf;
      var c: nat := minContext;
      ps := if skip then [] else [c];
      ghost var g := Gather(nodes, minContext, x as int, r);
      ghost var all := if skip then g.0 else [minContext] + g.0;
      assert ps + g.0 == all;
      GatherStep(nodes, c, x as int, r);
      while nodes[c].suffix.Some? && nodes[c].suffix.value < c
        invariant c < |nodes|
        invariant ps + Gather(nodes, c, x as int, r).0 == all && Gather(nodes, c, x as int, r).1 == g.1
        decreases c
      {
        GatherStep(nodes, c, x as int, r);
        var s := nodes[c].suffix.value;
        var up := SuccOf(nodes, s, x as int);
        if up != Raw(r) {
          assert ps + [] == ps;
          return ps, if up.Child? && up.id < |nodes| then Some(up.id) else None;
        }
        ghost var rest := Gather(nodes, s, x as int, r).0;
        assert ps + ([s] + rest) == ps + [s] + rest;
        ps := ps + [s];
        c := s;
      }
      GatherStep(nodes, c, x as int, r);
      assert ps + [] == ps;
      return ps, Some(c);
    }

    /** `CreateSuccessors`: from the last state gathered on, each gets a context above the one made before. */
    method CreateSuccessors(x: Byte, r: nat, skip: bool) returns (to: Option<nat>)
      requires minContext < |nodes|
      modifies `nodes
      ensures match ContextTree.CreateSuccessors(old(nodes), text, minContext, x as int, r, skip)
              case None => to == None && nodes == old(nodes)
              case Some((grown, c)) => to == Some(c) && nodes == grown
    {
      hide Gather;
      hide UpFreq;
      var ps, base := GatherUp(x, r, skip);
      if base.None? || |nodes| <= base.value {
        return None;
      }
      if ps == [] {
        return base;
      }
      if |text| <= r || nodes[base.value].ctx.states == [] {
        return None;
      }
      var one := State(text[r], UpFreq(nodes[base.value].ctx, text[r]));
      var c: nat := base.value;
      while ps != []
        modifies `nodes
        invariant Grow(nodes, ps, c, x as int, one, Raw(r + 1)) ==
                  old(Grow(nodes, if skip then Gather(nodes, minContext, x as int, r).0
                                  else [minContext] + Gather(nodes, minContext, x as int, r).0,
                           base.value, x as int, one, Raw(r + 1)))
        decreases |ps|
      {
        var c1 := |nodes|;
        var child := Node(Context([one], 0), map[one.symbol as int := Raw(r + 1)], Some(c));
        nodes := SetSucc(nodes, ps[|ps| - 1], x as int, Child(c1)) + [child];
        ps, c := ps[..|ps| - 1], c1;
      }
      return Some(c);
    }

    /** The suffix of MinContext takes note of the symbol, unless that is frequent. */
    method NoteSuffix(ghost k: nat, at: nat)
      requires FitAt(Value(), k, at) && At(k)
      modifies `nodes
      ensures Pointed(old(Value()), k, at)
      ensures nodes == old(Write(nodes, Path(nodes, maxContext),
                                 SuffixBumped(Chain(nodes, maxContext), k, nodes[minContext].ctx.states[at])))
    {
      hide AfterSuffix;
      hide FitAt;
      FitAtFacts(Value(), k, at);
      ghost var path, chain := Path(nodes, maxContext), Chain(nodes, maxContext);
      var found := nodes[minContext].ctx.states[at];
      SuffixThere(Value(), k, at);
      if found.freq < 31 && nodes[minContext].suffix.Some? {
        var c := nodes[minContext].suffix.value;
        nodes := nodes[c := nodes[c].(ctx := AfterSuffix(nodes[c].ctx, found.symbol))];
      }
      SuffixWritten(old(nodes), maxContext, k, found, nodes);
    }

    /** MinContext is the `k`-th context from MaxContext on. */
    ghost predicate At(k: nat)
      reads this
    {
      maxContext < |nodes| && k < |Path(nodes, maxContext)| && Path(nodes, maxContext)[k] == minContext
    }

    lemma SuffixThere(t: Tree<()>, k: nat, at: nat)
      requires FitAt(t, k, at)
      ensures k < |Path(t.nodes, t.cur)|
      ensures var path := Path(t.nodes, t.cur);
              && Linked(t.nodes) && t.cur < |t.nodes|
              && t.nodes[path[k]].suffix == (if k + 1 < |path| then Some(path[k + 1]) else None)
              && forall j :: 0 <= j < |path| ==> t.nodes[path[j]].ctx.states != []
    {
      hide Symbols;
      hide KeptContext;
      hide Continues;
      hide UsableSide;
      PathAt(t.nodes, t.cur, k);
      forall j | 0 <= j < |Path(t.nodes, t.cur)| ensures t.nodes[Path(t.nodes, t.cur)[j]].ctx.states != [] {
        assert FitNode(t.nodes, Path(t.nodes, t.cur)[j]);
      }
    }

    static lemma SuffixWritten(was: seq<Node>, cur: nat, k: nat, x: State, now: seq<Node>)
      requires Linked(was) && cur < |was| && k < |Path(was, cur)|
      requires var path, chain := Path(was, cur), Chain(was, cur);
               && (k + 1 < |path| ==> chain[k + 1].states != [])
               && now == if x.freq < 31 && k + 1 < |path| then
                           was[path[k + 1] := was[path[k + 1]].(ctx := AfterSuffix(chain[k + 1], x.symbol))]
                         else was
      ensures now == Write(was, Path(was, cur), SuffixBumped(Chain(was, cur), k, x))
    {
      hide AfterSuffix;
      hide Write;
      hide Linked;
      hide Apart;
      hide Path;
      var path := Path(was, cur);
      PathApart(was, cur);
      OneWritten(was, path, SuffixBumped(Chain(was, cur), k, x), if x.freq < 31 && k + 1 < |path| then k + 1 else |path|, now);
    }

    /** Writing a chain that differs in one context is writing that context. */
    static lemma OneWritten(was: seq<Node>, path: seq<nat>, chain: seq<Context>, one: nat, now: seq<Node>)
      requires Apart(path, |was|) && |chain| == |path|
      requires now == if one < |path| then was[path[one] := was[path[one]].(ctx := chain[one])] else was
      requires forall j :: 0 <= j < |path| && j != one ==> chain[j] == was[path[j]].ctx
      ensures now == Write(was, path, chain)
    {
      WriteIs(was, path, chain);
      hide Write;
      var want := Write(was, path, chain);
      forall i | 0 <= i < |was| ensures now[i] == want[i] {
        if i in path {
          var j :| 0 <= j < |path| && path[j] == i;
          assert want[path[j]] == was[path[j]].(ctx := chain[j]);
        }
      }
    }

    /** One context passed learns the symbol. */
    static function Learned(n: Node, x: State, s0: nat, ns: nat, initEsc: nat, passed: Succ): Node {
      Node(Append(n.ctx, x.symbol, x.freq, s0, ns, initEsc), n.succ[x.symbol as int := passed], n.suffix)
    }

    /** The append loop: from MaxContext to MinContext every context gets the symbol with the successor. */
    method AppendLoop(ghost k: nat, x: State, s0: nat, ns: nat, passed: Succ, ghost path: seq<nat>)
      requires Apart(path, |nodes|) && k < |path| && path[0] == maxContext && path[k] == minContext
      requires forall j :: 0 <= j < k ==> nodes[path[j]].suffix == Some(path[j + 1])
      modifies `nodes
      ensures |nodes| == |old(nodes)|
      ensures forall i :: 0 <= i < |nodes| ==>
                nodes[i] == if i in path[..k] then Learned(old(nodes)[i], x, s0, ns, side.initEsc, passed) else old(nodes)[i]
    {
      hide Append;
      var c: nat := maxContext;
      ghost var j: nat := 0;
      while c != minContext
        modifies `nodes
        invariant j <= k && c == path[j] && |nodes| == |old(nodes)| && c < |nodes|
        invariant forall i :: 0 <= i < |nodes| ==>
                    nodes[i] == if i in path[..j] then Learned(old(nodes)[i], x, s0, ns, side.initEsc, passed) else old(nodes)[i]
        decreases k - j
      {
        assert j < k;
        assert c !in path[..j] && nodes[c] == old(nodes)[path[j]];
        assert old(nodes)[path[j]].suffix == Some(path[j + 1]);
        assert path[..j + 1] == path[..j] + [c];
        nodes := nodes[c := Learned(nodes[c], x, s0, ns, side.initEsc, passed)];
        c := nodes[c].suffix.value;
        j := j + 1;
      }
      assert j == k;
    }

    static lemma {:induction false} GrowKeeps(nodes: seq<Node>, ps: seq<nat>, base: nat, x: int, one: State, succ: Succ)
      ensures var n := Grow(nodes, ps, base, x, one, succ).0;
              forall i :: 0 <= i < |nodes| ==> n[i].ctx == nodes[i].ctx && n[i].suffix == nodes[i].suffix
      decreases |ps|
    {
      if ps != [] {
        var child := Node(Context([one], 0), map[one.symbol as int := succ], Some(base));
        GrowKeeps(SetSucc(nodes, ps[|ps| - 1], x, Child(|nodes|)) + [child], ps[..|ps| - 1], |nodes|, x, one, succ);
      }
    }

    /** New contexts leave the old ones' frequencies and suffixes alone. */
    static lemma CreateKeeps(nodes: seq<Node>, text: seq<Byte>, c: nat, x: int, r: nat, skip: bool)
      requires c < |nodes|
      ensures match ContextTree.CreateSuccessors(nodes, text, c, x, r, skip)
              case None => true
              case Some((n, _)) => OldKept(nodes, n)
    {
      hide UpFreq;
      hide Gather;
      hide Grow;
      var (more, base) := Gather(nodes, c, x, r);
      if base.Some? && base.value < |nodes| && r < |text| && nodes[base.value].ctx.states != [] {
        GrowKeeps(nodes, if skip then more else [c] + more, base.value, x,
                  State(text[r], UpFreq(nodes[base.value].ctx, text[r])), Raw(r + 1));
      }
    }

    static ghost predicate OldKept(a: seq<Node>, b: seq<Node>) {
      |a| <= |b| && forall i :: 0 <= i < |a| ==> b[i].ctx == a[i].ctx && b[i].suffix == a[i].suffix
    }

    /** The append loop does what the specification says of the contexts and of their successors. */
    static lemma LoopWritten(n: seq<Node>, path: seq<nat>, was: seq<Context>, k: nat, x: State, s0: nat, ns: nat, e: nat,
                             passed: Succ, r: seq<Node>)
      requires Apart(path, |n|) && k <= |path| == |was| && |r| == |n|
      requires forall j :: 0 <= j < |path| ==> n[path[j]].ctx == was[j]
      requires forall i :: 0 <= i < |n| ==> r[i] == if i in path[..k] then Learned(n[i], x, s0, ns, e, passed) else n[i]
      ensures r == SetAll(Write(n, path, AppendAll(was, k, x.symbol, x.freq, s0, ns, e)), path[..k], x.symbol as int, passed)
    {
      hide Append;
      hide Write;
      hide SetAll;
      var now := AppendAll(was, k, x.symbol, x.freq, s0, ns, e);
      var want := SetAll(Write(n, path, now), path[..k], x.symbol as int, passed);
      forall i | 0 <= i < |n| ensures |want| == |n| && r[i] == want[i] {
        SpreadPath(n, path, now, k, x.symbol as int, passed, i);
        if i in path {
          var j :| 0 <= j < |path| && path[j] == i;
          assert j < k ==> path[..k][j] == i;
          assert i in path[..k] ==> j < k;
        }
      }
    }

    static lemma NothingWritten(n: seq<Node>, path: seq<nat>, was: seq<Context>, x: int, passed: Succ)
      requires Apart(path, |n|) && |path| == |was| && forall j :: 0 <= j < |path| ==> n[path[j]].ctx == was[j]
      ensures n == SetAll(Write(n, path, was), path[..0], x, passed)
    {
      WriteIs(n, path, was);
      var w := Write(n, path, was);
      forall i | 0 <= i < |n| ensures w[i] == n[i] {
        if i in path {
          var j :| 0 <= j < |path| && path[j] == i;
        }
      }
    }

    /** At full order a found state whose successor is no context has a place in the text. */
    static lemma RawAtFull(t: Tree<()>, k: nat, at: nat)
      requires FitAt(t, k, at) && t.side.orderFall == 0
      ensures k == 0 && !SuccOf(t.nodes, t.cur, Chain(t.nodes, t.cur)[0].states[at].symbol as int).Unset?
    {
      hide Symbols;
      hide KeptContext;
      hide Continues;
      hide UsableSide;
      FitAtFacts(t, k, at);
      InSymbols(Chain(t.nodes, t.cur)[0].states, at);
      assert SuccOk(SceneOf(t), t.cur, Chain(t.nodes, t.cur)[0].states[at].symbol as int);
      DepthStep(t.nodes, t.cur);
    }

    /** Text, order and contexts as in the specification, before the append loop. */
    method AdvanceModel(x: Byte, ghost k: nat) returns (next: Option<nat>, passed: Succ)
      requires minContext < |nodes| && (k == 0 <==> maxContext == minContext) && side.orderFall != 0
      modifies `nodes, `text, `side
      ensures match Advance(old(nodes), old(text), minContext, x, k, old(side).orderFall)
              case None => next == None && side == old(side)
              case Some(turn) =>
                && nodes == turn.nodes && text == turn.text && next == Some(turn.to) && passed == turn.passed
                && side == old(side).(orderFall := turn.orderFall)
    {
      hide ContextTree.CreateSuccessors;
      text := text + [x];
      passed := Raw(|text|);
      var s := SuccOf(nodes, minContext, x as int);
      if s.Unset? {
        nodes := SetSucc(nodes, minContext, x as int, passed);
        return Some(minContext), passed;
      }
      if s.Raw? {
        next := CreateSuccessors(x, s.at, false);
        if next.None? {
          return;
        }
      } else {
        next := Some(s.id);
      }
      side := side.(orderFall := side.orderFall - 1);
      if side.orderFall == 0 {
        passed := Child(next.value);
        if maxContext != minContext {
          text := text[..|text| - 1];
        }
      }
    }

    static lemma AdvanceKeeps(nodes: seq<Node>, text: seq<Byte>, v: nat, x: Byte, k: nat, orderFall: nat)
      requires v < |nodes|
      ensures match Advance(nodes, text, v, x, k, orderFall)
              case None => true
              case Some(turn) => OldKept(nodes, turn.nodes)
    {
      hide ContextTree.CreateSuccessors;
      match SuccOf(nodes, v, x as int)
      case Raw(r) =>
        CreateKeeps(nodes, text, v, x as int, r, true);
        CreateKeeps(nodes, text + [x], v, x as int, r, false);
      case _ =>
    }

    /** What `NoteSuffix` leaves: the chain with its suffix bumped, and the same links. */
    static lemma NotedFacts(t: Tree<()>, k: nat, at: nat, nodes: seq<Node>)
      requires FitAt(t, k, at) && Pointed(t, k, at)
      requires var chain := Chain(t.nodes, t.cur);
               nodes == Write(t.nodes, Path(t.nodes, t.cur), SuffixBumped(chain, k, chain[k].states[at]))
      ensures var path, chain := Path(t.nodes, t.cur), Chain(t.nodes, t.cur);
              var bumped := SuffixBumped(chain, k, chain[k].states[at]);
              && |nodes| == |t.nodes| && Apart(path, |nodes|) && |bumped| == |path| && bumped[k] == chain[k]
              && (forall j :: 0 <= j < |path| ==> nodes[path[j]].ctx == bumped[j])
              && (forall j :: 0 <= j < k ==> nodes[path[j]].suffix == Some(path[j + 1]))
              && forall x :: SuccOf(nodes, path[k], x) == SuccOf(t.nodes, path[k], x)
    {
      hide Symbols;
      hide KeptContext;
      hide KeptChain;
      hide SuffixBumped;
      hide Sane;
      hide UsableSide;
      hide Depth;
      hide Write;
      hide Path;
      FitAtFacts(t, k, at);
      SaneLinked(SceneOf(t));
      hide FitAt;
      var path, chain := Path(t.nodes, t.cur), Chain(t.nodes, t.cur);
      BumpedChain(chain, k, at);
      WriteLinks(t.nodes, t.cur, SuffixBumped(chain, k, chain[k].states[at]), k);
    }

    static lemma WriteLinks(nodes: seq<Node>, cur: nat, chain: seq<Context>, k: nat)
      requires Linked(nodes) && cur < |nodes| && |chain| == |Path(nodes, cur)| && k < |chain|
      ensures var path := Path(nodes, cur);
              var now := Write(nodes, path, chain);
              && |now| == |nodes| && Apart(path, |nodes|)
              && (forall j :: 0 <= j < |path| ==> now[path[j]].ctx == chain[j])
              && (forall j :: 0 <= j < k ==> now[path[j]].suffix == Some(path[j + 1]))
              && forall x :: SuccOf(now, path[k], x) == SuccOf(nodes, path[k], x)
    {
      hide Write;
      hide Path;
      var path := Path(nodes, cur);
      PathApart(nodes, cur);
      hide Linked;
      hide Apart;
      WriteIs(nodes, path, chain);
      var now := Write(nodes, path, chain);
      forall j | 0 <= j < k ensures now[path[j]].suffix == Some(path[j + 1]) {
        PathAt(nodes, cur, j);
      }
    }

    /** Without contexts passed there is nothing to append. */
    method UpdateAtFull(ghost t: Tree<()>, at: nat, x: Byte)
      requires FitAt(t, 0, at) && t.side.orderFall == 0 && x == Chain(t.nodes, t.cur)[0].states[at].symbol
      requires !SuccOf(t.nodes, t.cur, x as int).Child? && Pointed(t, 0, at)
      requires var chain := Chain(t.nodes, t.cur);
               nodes == Write(t.nodes, Path(t.nodes, t.cur), SuffixBumped(chain, 0, chain[0].states[at]))
      requires text == t.text && minContext == maxContext == t.cur && side == t.side && maxOrder == t.maxOrder
      modifies this
      ensures Value() == ContextTree.UpdateModel(t, 0, at, false) && minContext == maxContext
    {
      hide FitAt;
      hide SuffixBumped;
      hide StartTree;
      hide ContextTree.CreateSuccessors;
      hide Write;
      hide SetAll;
      hide SuccOf;
      hide Path;
      NotedFacts(t, 0, at, nodes);
      RawAtFull(t, 0, at);
      ghost var was, path := nodes, Path(t.nodes, t.cur);
      var r := SuccOf(nodes, minContext, x as int).at;
      CreateKeeps(nodes, text, minContext, x as int, r, true);
      var to := CreateSuccessors(x, r, true);
      if to.None? {
        RestartModel();
        assert t.memory == ();
        return;
      }
      nodes := SetSucc(nodes, minContext, x as int, Child(to.value));
      minContext, maxContext := to.value, to.value;
      ghost var chain := Chain(t.nodes, t.cur);
      NothingWritten(nodes, path, SuffixBumped(chain, 0, chain[0].states[at]), x as int, Unset);
      assert Spread(chain, 0, at, t.side) == SuffixBumped(chain, 0, chain[0].states[at]);
      assert Advance(was, text, path[0], x, 0, 0) == Some(Turn(nodes, text, to.value, 0, Unset));
      assert t.memory == () && side == t.side.(orderFall := 0);
    }

    static lemma ApartFacts(path: seq<nat>, k: nat, n: nat, more: nat)
      requires Apart(path, n) && n <= more && k < |path|
      ensures Apart(path, more) && (path[k] == path[0] <==> k == 0)
    {
    }

    /** Below full order: the text, the next context, and the append loop. */
    method UpdateBelowFull(ghost t: Tree<()>, ghost k: nat, at: nat, found: State)
      requires FitAt(t, k, at) && t.side.orderFall != 0 && Pointed(t, k, at) && found == Chain(t.nodes, t.cur)[k].states[at]
      requires var chain := Chain(t.nodes, t.cur);
               nodes == Write(t.nodes, Path(t.nodes, t.cur), SuffixBumped(chain, k, chain[k].states[at]))
      requires text == t.text && maxContext == t.cur && side == t.side && maxOrder == t.maxOrder
      requires minContext == Path(t.nodes, t.cur)[k]
      modifies this
      ensures Value() == ContextTree.UpdateModel(t, k, at, false) && minContext == maxContext
    {
      hide FitAt;
      hide SuffixBumped;
      hide StartTree;
      hide Advance;
      hide Write;
      hide SetAll;
      hide SuccOf;
      hide Path;
      hide Append;
      hide AppendAll;
      hide Contexts;
      hide Learned;
      hide Apart;
      hide Less;
      NotedFacts(t, k, at, nodes);
      ghost var was, path, chain := nodes, Path(t.nodes, t.cur), Chain(t.nodes, t.cur);
      ghost var bumped := SuffixBumped(chain, k, found);
      AdvanceKeeps(nodes, text, minContext, found.symbol, k, side.orderFall);
      ApartFacts(path, k, |nodes|, |nodes|);
      assert t.memory == ();
      var next, passed := AdvanceModel(found.symbol, k);
      if next.None? {
        RestartModel();
        return;
      }
      var ns := |nodes[minContext].ctx.states|;
      var s0 := Less(nodes[minContext].ctx.summFreq, ns + found.freq - 1);
      ghost var before := nodes;
      ApartFacts(path, k, |was|, |nodes|);
      AppendLoop(k, found, s0, ns, passed, path);
      LoopWritten(before, path, bumped, k, found, s0, ns, side.initEsc, passed, nodes);
      minContext, maxContext := next.value, next.value;
    }

    /** `UpdateModel`; `full` says whether memory runs out in it. */
    method UpdateModel(ghost k: nat, at: nat, full: bool)
      requires FitAt(Value(), k, at) && At(k)
      requires side.orderFall == 0 ==> !SuccOf(nodes, minContext, nodes[minContext].ctx.states[at].symbol as int).Child?
      modifies this
      ensures Pointed(old(Value()), k, at) && Value() == ContextTree.UpdateModel(old(Value()), k, at, full)
      ensures FitTree(Value()) && minContext == maxContext
    {
      hide FitAt;
      hide FitTree;
      hide Advance;
      hide SuffixBumped;
      hide StartTree;
      hide Write;
      hide SetAll;
      hide Path;
      hide Spread;
      ghost var was := Value();
      FitAtFacts(was, k, at);
      UpdateFits(was, k, at, full);
      var found := nodes[minContext].ctx.states[at];
      NoteSuffix(k, at);
      if full {
        RestartModel();
      } else if side.orderFall == 0 {
        UpdateAtFull(was, at, found.symbol);
      } else {
        UpdateBelowFull(was, k, at, found);
      }
    }

    /** `NextContext`. */
    method NextContext(at: nat, full: bool)
      requires FitAt(Value(), 0, at) && minContext == maxContext
      modifies this
      ensures Pointed(old(Value()), 0, at) && Value() == ContextTree.NextContext(old(Value()), at, full)
      ensures FitTree(Value()) && minContext == maxContext
    {
      hide FitAt;
      hide FitTree;
      hide ContextTree.UpdateModel;
      FitAtFacts(Value(), 0, at);
      NextFits(Value(), at, full);
      var s := SuccOf(nodes, minContext, nodes[minContext].ctx.states[at].symbol as int);
      if side.orderFall == 0 && s.Child? {
        minContext, maxContext := s.id, s.id;
      } else {
        UpdateModel(0, at, full);
      }
    }

    /** One context of the path, or all others, written as a chain that differs there. */
    static lemma TouchedWritten(t: Tree<()>, r: Result)
      requires Updatable(t, r) && Linked(t.nodes)
      ensures var path, chain := Path(t.nodes, t.cur), Touched(t, r).0;
              Write(t.nodes, path, chain) == t.nodes[path[r.level] := t.nodes[path[r.level]].(ctx := chain[r.level])]
    {
      hide Write;
      hide Updated;
      hide Path;
      hide Apart;
      var path := Path(t.nodes, t.cur);
      PathApart(t.nodes, t.cur);
      OneWritten(t.nodes, path, Touched(t, r).0, r.level,
                 t.nodes[path[r.level] := t.nodes[path[r.level]].(ctx := Touched(t, r).0[r.level])]);
    }

    /**
      What the coder ends with: Update1, Update1_0, UpdateBin or Update2 on the context the symbol was found in, up the
      suffixes from MaxContext, and then the next context.
     */
    method Update(r: Result, full: bool)
      requires FoundIn(Value(), r) && minContext == maxContext
      modifies this
      ensures Value() == Step(Memory((t: Tree<()>, x: Result) => full, (t: Tree<()>, x: Result) => ()), old(Value()), r)
      ensures FitTree(Value()) && minContext == maxContext
    {
      hide FitTree;
      hide FitAt;
      hide Sensible;
      hide Updated;
      hide Write;
      hide Noted;
      hide ContextTree.UpdateModel;
      hide ContextTree.NextContext;
      ghost var mem := Memory((t: Tree<()>, x: Result) => full, (t: Tree<()>, x: Result) => ());
      ghost var was := Value();
      StepKeeps(mem, was, r);
      TouchFits(mem, was, r);
      FoundFacts(was, r);
      NotedOrder(r.side, r.how, Chain(nodes, maxContext)[r.level], StartRun(maxOrder));
      TouchedWritten(was, r);
      ghost var path := Path(nodes, maxContext);
      Climb(r.level);
      var c := nodes[minContext].ctx;
      var (c', at) := Updated(c, IndexOf(c.states, r.symbol), r.how, r.side.orderFall);
      side := Noted(r.side, r.how, c, StartRun(maxOrder)).(foundSymbol := r.symbol);
      nodes := nodes[minContext := nodes[minContext].(ctx := c')];
      assert Value() == Touch(mem, was, r);
      CtxPath(was.nodes, minContext, c', maxContext);
      if r.how != Escaped {
        NextContext(at, full);
      } else {
        UpdateModel(r.level, at, full);
      }
    }

    static lemma FoundFacts(t: Tree<()>, r: Result)
      requires FoundIn(t, r)
      ensures Linked(t.nodes) && t.cur < |t.nodes| && (r.how != Escaped <==> r.level == 0)
      ensures r.level < |Path(t.nodes, t.cur)| && (r.side.orderFall == 0 ==> r.level == 0)
    {
      hide Symbols;
      hide Sensible;
      hide UsableSide;
      FoundThere(t, r);
      SaneLinked(SceneOf(t));
    }

    static lemma CtxPath(nodes: seq<Node>, i: nat, c: Context, cur: nat)
      requires i < |nodes| && cur < |nodes|
      ensures Path(nodes[i := nodes[i].(ctx := c)], cur) == Path(nodes, cur)
    {
      var now := nodes[i := nodes[i].(ctx := c)];
      forall j: nat ensures SameSuffix(nodes, now, j) {
      }
      PathSame(nodes, now, cur);
    }

    /** MinContext goes up `k` suffixes. */
    method Climb(k: nat)
      requires Linked(nodes) && maxContext < |nodes| && k < |Path(nodes, maxContext)|
      modifies `minContext
      ensures minContext == Path(nodes, maxContext)[k]
    {
      minContext := maxContext;
      for i := 0 to k
        invariant minContext == Path(nodes, maxContext)[i]
      {
        PathAt(nodes, maxContext, i);
        minContext := nodes[minContext].suffix.value;
      }
    }
  }
}
