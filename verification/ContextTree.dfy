/**
  The context tree of PPMd7. The successor of a state is the context its symbol leads to, or, as long as there is none,
  the place in the text behind the symbol; `UpdateModel` makes contexts out of places.
 */
module ContextTree {
  import opened Options
  import opened Words
  import opened PpmdContext
  import opened SymbolSpec
  import opened FrequencySpec
  import opened AdaptiveModel
  import opened ModelTables
  import opened SymbolRoundTrip

  datatype Succ = Unset | Raw(at: nat) | Child(id: nat)

  /** Successors are kept by symbol, as a context has a symbol only once. */
  datatype Node = Node(ctx: Context, succ: map<int, Succ>, suffix: Option<nat>)

  /** Contexts in the order of their creation, from the root on; the text; MinContext, and everything else. */
  datatype Tree<T> = Tree(nodes: seq<Node>, text: seq<Byte>, cur: nat, side: Side, maxOrder: nat, memory: T)

  /** When an update runs out of memory, and how the memory goes on: any given functions. */
  datatype Memory<!T> = Memory(full: (Tree<T>, Result) -> bool, next: (Tree<T>, Result) -> T)

  function SuccOf(nodes: seq<Node>, i: nat, x: int): Succ {
    if i < |nodes| && x in nodes[i].succ then nodes[i].succ[x] else Unset
  }

  function SetSucc(nodes: seq<Node>, i: nat, x: int, s: Succ): (r: seq<Node>)
    ensures |r| == |nodes|
  {
    if i < |nodes| then nodes[i := nodes[i].(succ := nodes[i].succ[x := s])] else nodes
  }

  // ---------- the suffix chain ----------

  /** A context, its suffix, and so on to the root. */
  function Path(nodes: seq<Node>, i: nat): (r: seq<nat>)
    requires i < |nodes|
    ensures r != [] && r[0] == i && forall j :: 0 <= j < |r| ==> r[j] <= i && r[j] < |nodes|
  {
    var s := nodes[i].suffix;
    if s.Some? && s.value < i then [i] + Path(nodes, s.value) else [i]
  }

  function Depth(nodes: seq<Node>, i: nat): nat
    requires i < |nodes|
  {
    |Path(nodes, i)| - 1
  }

  function Contexts(nodes: seq<Node>, path: seq<nat>): (r: seq<Context>)
    requires forall j :: 0 <= j < |path| ==> path[j] < |nodes|
    ensures |r| == |path| && forall j :: 0 <= j < |path| ==> r[j] == nodes[path[j]].ctx
  {
    seq(|path|, j requires 0 <= j < |path| => nodes[path[j]].ctx)
  }

  function Chain(nodes: seq<Node>, i: nat): (r: seq<Context>)
    requires i < |nodes|
    ensures |r| == |Path(nodes, i)|
  {
    Contexts(nodes, Path(nodes, i))
  }

  /** The contexts of a path replaced. */
  function Write(nodes: seq<Node>, path: seq<nat>, chain: seq<Context>): (r: seq<Node>)
    requires |chain| == |path|
    ensures |r| == |nodes|
    decreases |path|
  {
    if path == [] then nodes
    else
      var i := path[0];
      Write(if i < |nodes| then nodes[i := nodes[i].(ctx := chain[0])] else nodes, path[1..], chain[1..])
  }

  /** One successor for all contexts of a path. */
  function SetAll(nodes: seq<Node>, path: seq<nat>, x: int, s: Succ): (r: seq<Node>)
    ensures |r| == |nodes|
    decreases |path|
  {
    if path == [] then nodes else SetAll(SetSucc(nodes, path[0], x, s), path[1..], x, s)
  }

  // ---------- CreateSuccessors ----------

  /**
    The suffixes of `c` whose successor is the same place in the text, and the context the next one leads to, or the
    root when there is no next one; none when the next one leads to no context.
   */
  function Gather(nodes: seq<Node>, c: nat, x: int, r: nat): (g: (seq<nat>, Option<nat>))
    requires c < |nodes|
    decreases c
  {
    var s := nodes[c].suffix;
    if s.None? || c <= s.value then ([], Some(c))
    else
      var up := SuccOf(nodes, s.value, x);
      if up == Raw(r) then
        var (ps, base) := Gather(nodes, s.value, x, r);
        ([s.value] + ps, base)
      else ([], if up.Child? && up.id < |nodes| then Some(up.id) else None)
  }

  /** The frequency of the one state of a new context, taken from its suffix. */
  function UpFreq(c: Context, symbol: Byte): nat
    requires c.states != []
  {
    if |c.states| == 1 then c.states[0].freq
    else
      var cf := Less(c.states[PlaceOf(c.states, symbol)].freq, 1);
      var s0 := Less(c.summFreq, |c.states| + cf);
      1 + if 2 * cf <= s0 then Flag(5 * cf > s0) else Quotient(2 * cf + 3 * s0 - 1, if s0 == 0 then 1 else 2 * s0)
  }

  /** New contexts for the states gathered, from the last one on, each the suffix of the one before. */
  function Grow(nodes: seq<Node>, ps: seq<nat>, base: nat, x: int, one: State, succ: Succ): (g: (seq<Node>, nat))
    ensures |g.0| == |nodes| + |ps|
    decreases |ps|
  {
    if ps == [] then (nodes, base)
    else
      var child := Node(Context([one], 0), map[one.symbol as int := succ], Some(base));
      Grow(SetSucc(nodes, ps[|ps| - 1], x, Child(|nodes|)) + [child], ps[..|ps| - 1], |nodes|, x, one, succ)
  }

  /** The contexts with those made for the state `x` of `c`, and the one it now leads to. */
  function CreateSuccessors(nodes: seq<Node>, text: seq<Byte>, c: nat, x: int, r: nat, skip: bool)
    : (g: Option<(seq<Node>, nat)>)
    requires c < |nodes|
  {
    var (more, base) := Gather(nodes, c, x, r);
    var ps := if skip then more else [c] + more;
    if base.None? || |nodes| <= base.value then None
    else if ps == [] then Some((nodes, base.value))
    else if |text| <= r || nodes[base.value].ctx.states == [] then None
    else
      Some(Grow(nodes, ps, base.value, x, State(text[r], UpFreq(nodes[base.value].ctx, text[r])), Raw(r + 1)))
  }

  // ---------- one update ----------

  function StartTree<T>(maxOrder: nat, before: Side, memory: T): Tree<T> {
    Tree([Node(Context(StartStates(256), 257), map[], None)], [], 0, StartSide(maxOrder, before), maxOrder, memory)
  }

  /** What the middle of `UpdateModel` leaves: contexts, text, where it goes, the successor for the contexts passed. */
  datatype Turn = Turn(nodes: seq<Node>, text: seq<Byte>, to: nat, orderFall: nat, passed: Succ)

  /** `UpdateModel` between the suffix and the append loop; `k` contexts were passed before `v` knew the symbol. */
  function Advance(nodes: seq<Node>, text: seq<Byte>, v: nat, x: Byte, k: nat, orderFall: nat): Option<Turn>
    requires v < |nodes|
  {
    var s := SuccOf(nodes, v, x);
    if orderFall == 0 then
      if !s.Raw? then None
      else
        match CreateSuccessors(nodes, text, v, x, s.at, true)
        case None => None
        case Some((grown, to)) => Some(Turn(SetSucc(grown, v, x, Child(to)), text, to, 0, Unset))
    else
      var longer := text + [x];
      match s
      case Unset => Some(Turn(SetSucc(nodes, v, x, Raw(|longer|)), longer, v, orderFall, Raw(|longer|)))
      case Child(id) => Some(Stepped(nodes, text, longer, id, k, orderFall - 1))
      case Raw(r) =>
        match CreateSuccessors(nodes, longer, v, x, r, false)
        case None => None
        case Some((grown, to)) => Some(Stepped(grown, text, longer, to, k, orderFall - 1))
  }

  /** One order more; at full order no new place in the text is needed, nor the symbol just put there. */
  function Stepped(nodes: seq<Node>, text: seq<Byte>, longer: seq<Byte>, to: nat, k: nat, orderFall: nat): Turn {
    if orderFall == 0 then Turn(nodes, if k != 0 then text else longer, to, 0, Child(to))
    else Turn(nodes, longer, to, orderFall, Raw(|longer|))
  }

  predicate Spreadable(chain: seq<Context>, k: nat, at: nat) {
    k < |chain| && at < |chain[k].states| && (k + 1 < |chain| ==> chain[k + 1].states != [])
  }

  /** MinContext is the `k`-th context of the chain from MaxContext on, and FoundState the `at`-th of its states. */
  predicate Pointed<T>(t: Tree<T>, k: nat, at: nat) {
    t.cur < |t.nodes| && Spreadable(Chain(t.nodes, t.cur), k, at)
  }

  /** The model when memory runs out, or with the symbol in all contexts passed, at the next context. */
  function UpdateModel<T>(t: Tree<T>, k: nat, at: nat, full: bool): Tree<T>
    requires Pointed(t, k, at)
  {
    var path, chain := Path(t.nodes, t.cur), Chain(t.nodes, t.cur);
    var found := chain[k].states[at];
    var bumped := Write(t.nodes, path, SuffixBumped(chain, k, found));
    var turn := Advance(bumped, t.text, path[k], found.symbol, k, t.side.orderFall);
    if full || turn.None? then StartTree(t.maxOrder, t.side, t.memory)
    else
      var spread := Write(turn.value.nodes, path, Spread(chain, k, at, t.side));
      Tree(SetAll(spread, path[..k], found.symbol, turn.value.passed), turn.value.text, turn.value.to,
           t.side.(orderFall := turn.value.orderFall), t.maxOrder, t.memory)
  }

  /** At full order a successor that is a context is the next one; otherwise the model is updated. */
  function NextContext<T>(t: Tree<T>, at: nat, full: bool): Tree<T>
    requires Pointed(t, 0, at)
  {
    var s := SuccOf(t.nodes, t.cur, Chain(t.nodes, t.cur)[0].states[at].symbol);
    if t.side.orderFall == 0 && s.Child? then t.(cur := s.id) else UpdateModel(t, 0, at, full)
  }

  /** A found state that can be updated. */
  predicate Updatable<T>(t: Tree<T>, r: Result) {
    r.Found? && 0 <= r.symbol < 256 && t.cur < |t.nodes| && Learnable(Chain(t.nodes, t.cur), r)
  }

  /** The chain after the frequencies of Update1, Update1_0, UpdateBin or Update2, and the place of the found state. */
  function Touched<T>(t: Tree<T>, r: Result): (g: (seq<Context>, nat))
    requires Updatable(t, r)
    ensures |g.0| == |Path(t.nodes, t.cur)|
  {
    var chain := Chain(t.nodes, t.cur);
    var c := chain[r.level];
    var (c', at) := Updated(c, IndexOf(c.states, r.symbol), r.how, r.side.orderFall);
    (chain[r.level := c'], at)
  }

  function SideAfter<T>(t: Tree<T>, r: Result): Side
    requires Updatable(t, r)
  {
    Noted(r.side, r.how, Chain(t.nodes, t.cur)[r.level], StartRun(t.maxOrder)).(foundSymbol := r.symbol)
  }

  function Touch<T>(mem: Memory<T>, t: Tree<T>, r: Result): Tree<T>
    requires Updatable(t, r)
  {
    t.(nodes := Write(t.nodes, Path(t.nodes, t.cur), Touched(t, r).0), side := SideAfter(t, r), memory := mem.next(t, r))
  }

  /** The model after what was found. */
  function Step<T>(mem: Memory<T>, t: Tree<T>, r: Result): Tree<T> {
    if !Updatable(t, r) then t.(side := r.side)
    else
      var touched, at := Touch(mem, t, r), Touched(t, r).1;
      if !Pointed(touched, r.level, at) then touched
      else if r.how != Escaped && r.level == 0 then NextContext(touched, at, mem.full(t, r))
      else UpdateModel(touched, r.level, at, mem.full(t, r))
  }

  /** The model as both programs see it. */
  function Codec<T>(mem: Memory<T>): Program<Tree<T>> {
    Program((t: Tree<T>) => (if t.cur < |t.nodes| then Chain(t.nodes, t.cur) else [], t.side),
            (t: Tree<T>, r: Result) => Step(mem, t, r))
  }
}
