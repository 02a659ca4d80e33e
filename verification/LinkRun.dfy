/** What whole runs of the hardlink resolver return: every entry once, and each group of links in its format's shape. */
module LinkRun {
  import opened Bits
  import opened Options
  import opened Words
  import opened LinkTable
  import opened LinkProtocol

  /** An entry the resolver matches up under the key `k`. */
  predicate Tracked(e: Entry, k: Key) {
    !Untracked(e) && KeyOf(e) == Some(k)
  }

  ghost predicate HeldKeys(m: map<Key, Node>) {
    forall k :: k in m && m[k].entry.Some? ==> Tracked(m[k].entry.value, k)
  }

  /** A map the table refines, fit for the strategy. */
  ghost predicate Good(t: Table, m: map<Key, Node>, s: Strategy) {
    Refines(t, m) && MapFits(m, s) && HeldKeys(m)
  }

  ghost predicate Reachable(t: Table, s: Strategy) {
    exists m :: Good(t, m, s)
  }

  /** The effect of one entry on the map. */
  ghost function After(m: map<Key, Node>, s: Strategy, e: Entry): map<Key, Node>
    requires MapFits(m, s)
  {
    if Untracked(e) || s == LikeOldCpio || KeyOf(e).None? then m
    else Put(m, KeyOf(e).value, Turn(Get(m, KeyOf(e).value), s, e).0)
  }

  lemma TurnFits(n: Option<Node>, s: Strategy, e: Entry)
    requires KeyOf(e).Some? && (n.Some? ==> n.value.links > 0 && (n.value.entry.Some? <==> s == LikeNewCpio))
    requires e.nlink != 1
    ensures var r := Turn(n, s, e).0;
            r.Some? ==> r.value.links > 0 && (r.value.entry.Some? <==> s == LikeNewCpio)
                        && (r.value.entry.Some? ==> r.value.entry.value == e)
  {
  }

  lemma LinkifyGood(t: Table, m: map<Key, Node>, s: Strategy, e: Entry)
    requires Good(t, m, s)
    ensures Fitting(t, s) && Good(Linkify(t, s, Some(e)).table, After(m, s, e), s)
    ensures Untracked(e) || s == LikeOldCpio || KeyOf(e).None? ==> Outputs(Linkify(t, s, Some(e))) == [e]
    ensures !Untracked(e) && s != LikeOldCpio && KeyOf(e).Some? ==>
              Outputs(Linkify(t, s, Some(e))) == Turn(Get(m, KeyOf(e).value), s, e).1
  {
    hide Refines;
    hide Turn;
    FitsMap(t, m, s);
    if !Untracked(e) && s != LikeOldCpio && KeyOf(e).Some? {
      MatchRefines(t, m, s, e);
      TurnFits(Get(m, KeyOf(e).value), s, e);
    }
  }

  lemma LinkifyReachable(t: Table, s: Strategy, e: Entry)
    requires Reachable(t, s)
    ensures Fitting(t, s) && Reachable(Linkify(t, s, Some(e)).table, s)
  {
    var m: map<Key, Node> :| Good(t, m, s);
    LinkifyGood(t, m, s, e);
  }

  lemma DrainReachable(t: Table, s: Strategy)
    requires Reachable(t, s)
    ensures Fitting(t, s) && Reachable(Linkify(t, s, None).table, s)
    ensures Linkify(t, s, None).e.Some? ==> Size(Linkify(t, s, None).table, 0) < Size(t, 0)
    ensures Linkify(t, s, None).e.None? ==> Linkify(t, s, None).table == t
  {
    var m: map<Key, Node> :| Good(t, m, s);
    FitsMap(t, m, s);
    DrainRefines(t, m, s);
    var o := Linkify(t, s, None);
    if o.e.Some? {
      var k: Key :| k in m && m[k].entry == o.e && Refines(o.table, m - {k});
      assert Good(o.table, m - {k}, s);
    }
  }

  /** The entries are passed to linkify one after the other; what it returns is collected. */
  ghost function Run(t: Table, s: Strategy, inputs: seq<Entry>): (Table, seq<Entry>)
    requires Reachable(t, s)
    decreases |inputs|
  {
    if inputs == [] then (t, [])
    else
      LinkifyReachable(t, s, inputs[0]);
      var o := Linkify(t, s, Some(inputs[0]));
      var (r, out) := Run(o.table, s, inputs[1..]);
      (r, Outputs(o) + out)
  }

  lemma NoRun(t: Table, s: Strategy)
    requires Reachable(t, s)
    ensures Run(t, s, []) == (t, [])
  {
  }

  lemma RunFrom(t: Table, s: Strategy, inputs: seq<Entry>, i: nat)
    requires i < |inputs| && Reachable(t, s)
    ensures Fitting(t, s) && Reachable(Linkify(t, s, Some(inputs[i])).table, s)
    ensures var o := Linkify(t, s, Some(inputs[i]));
            var (r, out) := Run(o.table, s, inputs[i + 1..]);
            Run(t, s, inputs[i..]) == (r, Outputs(o) + out)
  {
    hide Linkify;
    hide Reachable;
    LinkifyReachable(t, s, inputs[i]);
    assert inputs[i..][0] == inputs[i] && inputs[i..][1..] == inputs[i + 1..];
  }

  /** Then linkify is called without an entry until it returns none. */
  ghost function Drain(t: Table, s: Strategy): seq<Entry>
    requires Reachable(t, s)
    decreases Size(t, 0)
  {
    DrainReachable(t, s);
    var o := Linkify(t, s, None);
    if o.e.None? then [] else [o.e.value] + Drain(o.table, s)
  }

  lemma {:induction false} RunReachable(t: Table, s: Strategy, inputs: seq<Entry>)
    requires Reachable(t, s)
    ensures Reachable(Run(t, s, inputs).0, s)
    decreases |inputs|
  {
    if inputs != [] {
      LinkifyReachable(t, s, inputs[0]);
      RunReachable(Linkify(t, s, Some(inputs[0])).table, s, inputs[1..]);
    }
  }

  ghost function Whole(t: Table, s: Strategy, inputs: seq<Entry>): seq<Entry>
    requires Reachable(t, s)
  {
    RunReachable(t, s, inputs);
    Run(t, s, inputs).1 + Drain(Run(t, s, inputs).0, s)
  }

  // ---------- one key at a time ----------

  function Project(es: seq<Entry>, k: Key): seq<Entry> {
    if es == [] then [] else (if Tracked(es[0], k) then [es[0]] else []) + Project(es[1..], k)
  }

  lemma {:induction false} ProjectConcat(a: seq<Entry>, b: seq<Entry>, k: Key)
    ensures Project(a + b, k) == Project(a, k) + Project(b, k)
  {
    if a == [] {
      assert a + b == b;
    } else {
      assert (a + b)[1..] == a[1..] + b;
      ProjectConcat(a[1..], b, k);
    }
  }

  ghost predicate NodeFits(n: Option<Node>, s: Strategy) {
    n.Some? ==> n.value.links > 0 && (n.value.entry.Some? <==> s == LikeNewCpio)
  }

  ghost predicate Usable(e: Entry) {
    KeyOf(e).Some? && e.nlink != 1
  }

  /** The run of one key: its entries take turns with its node; at the end what is held is returned. */
  ghost function KeyRun(n: Option<Node>, s: Strategy, es: seq<Entry>): seq<Entry>
    requires NodeFits(n, s) && forall e :: e in es ==> Usable(e)
    decreases |es|
  {
    if es == [] then (if n.Some? && n.value.entry.Some? then [n.value.entry.value] else [])
    else
      assert es[0] in es && Usable(es[0]) && forall e :: e in es[1..] ==> e in es;
      TurnFits(n, s, es[0]);
      var (r, out) := Turn(n, s, es[0]);
      out + KeyRun(r, s, es[1..])
  }

  lemma {:induction false} ProjectTracked(es: seq<Entry>, k: Key)
    ensures forall e :: e in Project(es, k) ==> Tracked(e, k)
  {
    if es != [] {
      ProjectTracked(es[1..], k);
    }
  }

  /** All that one turn returns belongs to the key of the turn. */
  lemma TurnProject(n: Option<Node>, s: Strategy, e: Entry, own: Key, k: Key)
    requires NodeFits(n, s) && Tracked(e, own)
    requires n.Some? && n.value.entry.Some? ==> Tracked(n.value.entry.value, own)
    ensures Project(Turn(n, s, e).1, k) == if k == own then Turn(n, s, e).1 else []
  {
    var out := Turn(n, s, e).1;
    if |out| == 2 {
      assert out == [out[0]] + [out[1]];
      ProjectConcat([out[0]], [out[1]], k);
    }
  }

  lemma {:induction false} DrainProject(t: Table, m: map<Key, Node>, s: Strategy, k: Key)
    requires Good(t, m, s)
    ensures Reachable(t, s)
    ensures Project(Drain(t, s), k) == if k in m && m[k].entry.Some? then [m[k].entry.value] else []
    decreases Size(t, 0)
  {
    hide Fitting;
    hide NextAt;
    hide Refines;
    assert Good(t, m, s);
    FitsMap(t, m, s);
    DrainRefines(t, m, s);
    var o := Linkify(t, s, None);
    DrainReachable(t, s);
    if o.e.Some? {
      var own: Key :| own in m && m[own].entry == o.e && Refines(o.table, m - {own});
      DrainProject(o.table, m - {own}, s, k);
      ProjectConcat([o.e.value], Drain(o.table, s), k);
    }
  }

  /** Seen through one key, the whole run is the run of that key. */
  lemma {:induction false} WholeProject(t: Table, m: map<Key, Node>, s: Strategy, inputs: seq<Entry>, k: Key)
    requires Good(t, m, s) && s != LikeOldCpio
    ensures Reachable(t, s) && (forall e :: e in Project(inputs, k) ==> Usable(e))
    ensures NodeFits(Get(m, k), s)
    ensures Project(Whole(t, s, inputs), k) == KeyRun(Get(m, k), s, Project(inputs, k))
    decreases |inputs|
  {
    hide *;
    GoodFits(t, m, s, k);
    ProjectUsable(inputs, k);
    if inputs == [] {
      DrainProject(t, m, s, k);
      WholeOfNone(t, s, k);
      KeyRunNone(Get(m, k), s, k);
      GetIs(m, k);
    } else {
      var e := inputs[0];
      assert inputs == [e] + inputs[1..];
      LinkifyGood(t, m, s, e);
      var o := Linkify(t, s, Some(e));
      var m' := After(m, s, e);
      GoodFits(o.table, m', s, k);
      WholeProject(o.table, m', s, inputs[1..], k);
      WholeStep(t, s, inputs, k);
      StepProject(m, s, e, inputs[1..], k);
    }
  }

  lemma GoodFits(t: Table, m: map<Key, Node>, s: Strategy, k: Key)
    requires Good(t, m, s)
    ensures Reachable(t, s) && NodeFits(Get(m, k), s) && MapFits(m, s) && HeldKeys(m)
  {
  }

  lemma GetIs(m: map<Key, Node>, k: Key)
    ensures Get(m, k) == if k in m then Some(m[k]) else None
  {
  }

  lemma ProjectUsable(es: seq<Entry>, k: Key)
    ensures forall e :: e in Project(es, k) ==> Usable(e)
  {
    ProjectTracked(es, k);
  }

  lemma WholeOfNone(t: Table, s: Strategy, k: Key)
    requires Reachable(t, s)
    ensures Whole(t, s, []) == Drain(t, s) && Project([], k) == []
  {
    assert [] + Drain(t, s) == Drain(t, s);
  }

  lemma KeyRunNone(n: Option<Node>, s: Strategy, k: Key)
    requires NodeFits(n, s)
    ensures KeyRun(n, s, []) == if n.Some? && n.value.entry.Some? then [n.value.entry.value] else []
  {
  }

  lemma WholeStep(t: Table, s: Strategy, inputs: seq<Entry>, k: Key)
    requires Reachable(t, s) && inputs != []
    ensures Fitting(t, s) && Reachable(Linkify(t, s, Some(inputs[0])).table, s)
    ensures var o := Linkify(t, s, Some(inputs[0]));
            && Whole(t, s, inputs) == Outputs(o) + Whole(o.table, s, inputs[1..])
            && Project(Whole(t, s, inputs), k) == Project(Outputs(o), k) + Project(Whole(o.table, s, inputs[1..]), k)
  {
    hide Linkify;
    LinkifyReachable(t, s, inputs[0]);
    var o := Linkify(t, s, Some(inputs[0]));
    var (r, out) := Run(o.table, s, inputs[1..]);
    RunReachable(o.table, s, inputs[1..]);
    assert (Outputs(o) + out) + Drain(r, s) == Outputs(o) + (out + Drain(r, s));
    ProjectConcat(Outputs(o), Whole(o.table, s, inputs[1..]), k);
  }

  /** One step of the whole run, seen through one key. */
  lemma StepProject(m: map<Key, Node>, s: Strategy, e: Entry, es: seq<Entry>, k: Key)
    requires MapFits(m, s) && HeldKeys(m) && s != LikeOldCpio
    requires NodeFits(Get(m, k), s) && NodeFits(Get(After(m, s, e), k), s)
    requires forall x :: x in Project([e] + es, k) ==> Usable(x)
    requires forall x :: x in Project(es, k) ==> Usable(x)
    ensures var out := if Untracked(e) || KeyOf(e).None? then [e] else Turn(Get(m, KeyOf(e).value), s, e).1;
            KeyRun(Get(m, k), s, Project([e] + es, k)) ==
            Project(out, k) + KeyRun(Get(After(m, s, e), k), s, Project(es, k))
  {
    hide Turn;
    assert ([e] + es)[1..] == es;
    if !Untracked(e) && KeyOf(e).Some? {
      var own := KeyOf(e).value;
      TurnProject(Get(m, own), s, e, own, k);
      if own == k {
        assert Project([e] + es, k) == [e] + Project(es, k);
        assert Project([e] + es, k)[1..] == Project(es, k);
        assert Get(After(m, s, e), k) == Turn(Get(m, k), s, e).0;
      } else {
        assert Get(After(m, s, e), k) == Get(m, k) && Project([e] + es, k) == Project(es, k);
      }
    } else {
      assert Project([e], k) == [] && Project([e] + es, k) == Project(es, k);
    }
  }

  // ---------- the shape of each group ----------

  /** The names a file has by its own account; a count of 0 never runs out. */
  function Span(e: Entry): nat {
    if e.nlink == 0 then 0x1_0000_0000 else e.nlink
  }

  function Earlier(c: seq<Entry>, n: nat): seq<Entry>
    requires n <= |c|
  {
    seq(n, i requires 0 <= i < n => AsLink(c[i], c[0].pathname))
  }

  function Later(s: Strategy, c: seq<Entry>): seq<Entry>
    requires c != []
  {
    seq(|c| - 1, i requires 0 <= i < |c| - 1 => AsTarLink(s, c[i + 1], c[0].pathname))
  }

  /**
    What is returned for one group of links. New cpio: all but the last become links to the first, without a size, and
    the last stays as it was. Tar and mtree: the first stays as it was, the others become links to it.
   */
  function GroupOut(s: Strategy, c: seq<Entry>): seq<Entry>
    requires c != []
  {
    if s == LikeNewCpio then Earlier(c, |c| - 1) + [c[|c| - 1]] else [c[0]] + Later(s, c)
  }

  /** Entries of one key fall into groups: the first entry of a group says how many belong to it. */
  function Groups(s: Strategy, es: seq<Entry>): seq<Entry>
    decreases |es|
  {
    if es == [] then []
    else if |es| <= Span(es[0]) || Span(es[0]) == 0 then GroupOut(s, es)
    else GroupOut(s, es[..Span(es[0])]) + Groups(s, es[Span(es[0])..])
  }

  /** The node after the entries of `c`, an unfinished group. */
  ghost predicate Open(n: Option<Node>, s: Strategy, c: seq<Entry>) {
    if c == [] then n.None?
    else
      && n.Some? && |c| < Span(c[0]) && n.value.canonical == c[0] && n.value.links == Span(c[0]) - |c|
      && n.value.entry == if s == LikeNewCpio then Some(c[|c| - 1]) else None
  }

  /** What has been returned for an unfinished group. */
  ghost function Returned(s: Strategy, c: seq<Entry>): seq<Entry> {
    if c == [] then [] else if s == LikeNewCpio then Earlier(c, |c| - 1) else [c[0]] + Later(s, c)
  }

  lemma EarlierSnoc(c: seq<Entry>, e: Entry)
    requires c != []
    ensures Earlier(c + [e], |c|) == Earlier(c, |c| - 1) + [AsLink(c[|c| - 1], c[0].pathname)]
  {
  }

  lemma LaterSnoc(s: Strategy, c: seq<Entry>, e: Entry)
    requires c != []
    ensures Later(s, c + [e]) == Later(s, c) + [AsTarLink(s, e, c[0].pathname)]
  {
  }

  lemma OneEntry(s: Strategy, e: Entry)
    ensures Earlier([e], 0) == [] && Later(s, [e]) == []
  {
  }

  lemma TurnOpen(n: Option<Node>, s: Strategy, c: seq<Entry>, e: Entry)
    requires Open(n, s, c) && NodeFits(n, s) && KeyOf(e).Some? && e.nlink != 1
    ensures var (r, out) := Turn(n, s, e);
            var d := c + [e];
            if |d| < Span(d[0]) then Open(r, s, d) && Returned(s, c) + out == Returned(s, d)
            else r.None? && |d| == Span(d[0]) && Returned(s, c) + out == GroupOut(s, d)
  {
    hide AsLink;
    hide AsTarLink;
    hide Earlier;
    hide Later;
    var d := c + [e];
    if c != [] {
      EarlierSnoc(c, e);
      LaterSnoc(s, c, e);
    } else {
      assert d == [e];
      OneEntry(s, e);
    }
  }

  lemma {:induction false} KeyRunGroups(n: Option<Node>, s: Strategy, c: seq<Entry>, es: seq<Entry>)
    requires Open(n, s, c) && NodeFits(n, s) && forall e :: e in es ==> Usable(e)
    ensures Returned(s, c) + KeyRun(n, s, es) == Groups(s, c + es)
    decreases |es|
  {
    hide Turn;
    hide Groups;
    hide GroupOut;
    hide Returned;
    if es == [] {
      assert c + es == c;
      OpenGroup(n, s, c);
    } else {
      var e := es[0];
      assert e in es && forall x :: x in es[1..] ==> x in es;
      TurnOpen(n, s, c, e);
      var (r, out) := Turn(n, s, e);
      var d := c + [e];
      assert c + es == d + es[1..];
      assert Returned(s, c) + KeyRun(n, s, es) == (Returned(s, c) + out) + KeyRun(r, s, es[1..]);
      if |d| < Span(d[0]) {
        KeyRunGroups(r, s, d, es[1..]);
      } else {
        KeyRunGroups(r, s, [], es[1..]);
        FullGroup(s, d, es[1..]);
      }
    }
  }

  lemma OpenGroup(n: Option<Node>, s: Strategy, c: seq<Entry>)
    requires Open(n, s, c) && NodeFits(n, s)
    ensures Returned(s, c) + KeyRun(n, s, []) == Groups(s, c)
  {
  }

  lemma FullGroup(s: Strategy, d: seq<Entry>, rest: seq<Entry>)
    requires d != [] && |d| == Span(d[0])
    ensures Groups(s, d + rest) == GroupOut(s, d) + Groups(s, [] + rest) && Returned(s, []) == []
  {
    assert [] + rest == rest;
    if rest == [] {
      assert d + rest == d;
    } else {
      assert (d + rest)[..|d|] == d && (d + rest)[|d|..] == rest;
    }
  }

  // ---------- the same by the fields of the entries ----------

  /** `r` is `e` as a link to `target`: nothing else has changed but the size, which is unset unless it is kept. */
  predicate LinkTo(e: Entry, target: string, keepsSize: bool, r: Entry) {
    && r.hardlink == Some(target) && r.size == (if keepsSize then e.size else None)
    && r.id == e.id && r.pathname == e.pathname && r.nlink == e.nlink && r.filetype == e.filetype
    && r.dev == e.dev && r.ino == e.ino
  }

  /** One name of a group comes out as it went in, and all others as links to the first one. */
  ghost predicate GroupBack(c: seq<Entry>, keeper: nat, keepsSize: bool, r: seq<Entry>) {
    && |r| == |c| && keeper < |c| && r[keeper] == c[keeper]
    && forall i :: 0 <= i < |c| && i != keeper ==> LinkTo(c[i], c[0].pathname, keepsSize, r[i])
  }

  /**
    Group by group: as many names as the first one says it has links, 2^32 for none, as far as there are any. The last
    of a group keeps its body for new cpio, the first for tar and mtree, where mtree leaves the sizes.
   */
  ghost predicate ComesBack(s: Strategy, es: seq<Entry>, r: seq<Entry>)
    decreases |es|
  {
    if es == [] then r == []
    else
      var links := if es[0].nlink == 0 then 0x1_0000_0000 else es[0].nlink;
      var n := if |es| <= links then |es| else links;
      && |r| == |es| && GroupBack(es[..n], if s == LikeNewCpio then n - 1 else 0, s == LikeMtree, r[..n])
      && ComesBack(s, es[n..], r[n..])
  }

  lemma GroupShaped(s: Strategy, c: seq<Entry>)
    requires c != [] && s != LikeOldCpio
    ensures GroupBack(c, if s == LikeNewCpio then |c| - 1 else 0, s == LikeMtree, GroupOut(s, c))
  {
    var r := GroupOut(s, c);
    if s == LikeNewCpio {
      forall i | 0 <= i < |c| - 1 ensures LinkTo(c[i], c[0].pathname, false, r[i]) {
        assert r[i] == AsLink(c[i], c[0].pathname);
      }
    } else {
      forall i | 0 < i < |c| ensures LinkTo(c[i], c[0].pathname, s == LikeMtree, r[i]) {
        assert r[i] == AsTarLink(s, c[i], c[0].pathname);
      }
    }
  }

  lemma {:induction false} GroupsShaped(s: Strategy, es: seq<Entry>)
    requires s != LikeOldCpio
    ensures ComesBack(s, es, Groups(s, es))
    decreases |es|
  {
    hide GroupOut;
    hide GroupBack;
    if es != [] {
      var links := Span(es[0]);
      var n := if |es| <= links then |es| else links;
      GroupShaped(s, es[..n]);
      SameSize(s, es[..n]);
      if |es| <= links {
        assert es[..n] == es && es[n..] == [];
        assert GroupOut(s, es)[..n] == GroupOut(s, es) && GroupOut(s, es)[n..] == [];
      } else {
        var first, rest := GroupOut(s, es[..n]), Groups(s, es[n..]);
        assert (first + rest)[..n] == first && (first + rest)[n..] == rest;
        GroupsShaped(s, es[n..]);
        ComesBackSize(s, es[n..], rest);
      }
    }
  }

  lemma SameSize(s: Strategy, c: seq<Entry>)
    requires c != []
    ensures |GroupOut(s, c)| == |c|
  {
  }

  lemma ComesBackSize(s: Strategy, es: seq<Entry>, r: seq<Entry>)
    requires ComesBack(s, es, r)
    ensures |r| == |es|
  {
  }

  /**
    For every run that starts with an empty table: each key's entries come back group by group, in shape, which the
    fields of what comes back tell.
   */
  lemma GroupLaw(t: Table, s: Strategy, inputs: seq<Entry>, k: Key)
    requires Refines(t, map[]) && s != LikeOldCpio
    ensures Reachable(t, s) && Project(Whole(t, s, inputs), k) == Groups(s, Project(inputs, k))
    ensures ComesBack(s, Project(inputs, k), Project(Whole(t, s, inputs), k))
  {
    hide ComesBack;
    assert Good(t, map[], s);
    WholeProject(t, map[], s, inputs, k);
    ProjectUsable(inputs, k);
    var es := Project(inputs, k);
    KeyRunGroups(None, s, [], es);
    assert [] + es == es;
    GroupsShaped(s, es);
  }

  // ---------- which entries are matched up ----------

  lemma CountedDown(t: Table, p: Place, held: Option<Entry>)
    requires p.bucket < |t| && p.index < |t[p.bucket]| && t[p.bucket][p.index].links > 0
    ensures CountDown(t, p, held) != t
  {
    var b, i := p.bucket, p.index;
    if t[b][i].links == 1 {
      RemoveSize(t, b, i, 0);
    } else {
      var n := t[b][i].(links := t[b][i].links - 1, entry := held);
      assert Change(t, b, i, n)[b][i] == n;
    }
  }

  lemma InsertGrows(t: Table, e: Entry, held: Option<Entry>)
    requires PowerOfTwo(|t|) && KeyOf(e).Some?
    ensures Insert(t, e, held) != t
  {
    var r := Enlarged(t);
    GrowSize(t);
    assert Size(r, 0) == Size(t, 0);
    var n := NewNode(e, held);
    MaskIsMod(n.hash, |r|);
    PrependSize(r, And(n.hash, |r| - 1), n, 0);
  }

  /**
    A call leaves the table alone if and only if the entry has one link, is a directory or a device, or has no device or
    inode number; such an entry is returned at once as it is.
   */
  lemma PassesThrough(t: Table, s: Strategy, e: Entry)
    requires Fitting(t, s) && s != LikeOldCpio
    ensures var passes := e.nlink == 1 || e.filetype in {Directory, BlockDevice, CharDevice} || e.dev == None || e.ino == None;
            && (Linkify(t, s, Some(e)).table == t <==> passes)
            && (passes ==> Linkify(t, s, Some(e)) == Outcome(t, Some(e), None))
  {
    if !Untracked(e) && KeyOf(e).Some? {
      var p := Locate(t, e);
      if p.Some? {
        assert NodeOk(t, p.value.bucket, p.value.index);
        CountedDown(t, p.value, if s == LikeNewCpio then Some(e) else None);
      } else {
        InsertGrows(t, e, if s == LikeNewCpio then Some(e) else None);
      }
    }
  }

  /** A new table, with 1024 empty buckets, holds nothing. */
  lemma StartPower()
    ensures PowerOfTwo(1024)
  {
    assert PowerOfTwo(1) && PowerOfTwo(2) && PowerOfTwo(4) && PowerOfTwo(8) && PowerOfTwo(16) && PowerOfTwo(32);
    assert PowerOfTwo(64) && PowerOfTwo(128) && PowerOfTwo(256) && PowerOfTwo(512);
  }

  lemma StartRefines()
    ensures Refines(NoNodes(1024), map[])
  {
    var t := NoNodes(1024);
    StartPower();
    hide PowerOfTwo;
    forall b: nat, i: nat ensures NodeOk(t, b, i) && InMap(t, map[], b, i) {
    }
    forall b: nat, i: nat, j: nat ensures DistinctOk(t, b, i, j) {
    }
    forall k: Key ensures InTable(t, map[], k) {
    }
  }

  // ---------- nothing is lost, nothing returned twice ----------

  /** How often the entry `id` occurs. */
  function Ids(es: seq<Entry>, id: nat): nat {
    if es == [] then 0 else One(es[0], id) + Ids(es[1..], id)
  }

  function One(e: Entry, id: nat): nat {
    if e.id == id then 1 else 0
  }

  lemma {:induction false} IdsConcat(a: seq<Entry>, b: seq<Entry>, id: nat)
    ensures Ids(a + b, id) == Ids(a, id) + Ids(b, id)
  {
    if a == [] {
      assert a + b == b;
    } else {
      assert (a + b)[1..] == a[1..] + b;
      IdsConcat(a[1..], b, id);
    }
  }

  /** The entries that nodes hold back. */
  function HeldIn(l: seq<Node>, id: nat): nat {
    if l == [] then 0 else HeldBy(l[0], id) + HeldIn(l[1..], id)
  }

  function HeldBy(n: Node, id: nat): nat {
    if n.entry.Some? then One(n.entry.value, id) else 0
  }

  function HeldFrom(t: Table, b: nat, id: nat): nat
    requires b <= |t|
    decreases |t| - b
  {
    if b == |t| then 0 else HeldIn(t[b], id) + HeldFrom(t, b + 1, id)
  }

  lemma {:induction false} HeldConcat(a: seq<Node>, b: seq<Node>, id: nat)
    ensures HeldIn(a + b, id) == HeldIn(a, id) + HeldIn(b, id)
  {
    if a == [] {
      assert a + b == b;
    } else {
      assert (a + b)[1..] == a[1..] + b;
      HeldConcat(a[1..], b, id);
    }
  }

  /** Replacing one bucket changes what is held by the difference of the buckets. */
  lemma {:induction false} HeldBucket(t: Table, b: nat, l: seq<Node>, c: nat, id: nat)
    requires b < |t| && c <= |t|
    ensures HeldFrom(t[b := l], c, id) + (if c <= b then HeldIn(t[b], id) else 0) ==
            HeldFrom(t, c, id) + if c <= b then HeldIn(l, id) else 0
    decreases |t| - c
  {
    if c < |t| {
      HeldBucket(t, b, l, c + 1, id);
    }
  }

  lemma HeldPrepend(t: Table, b: nat, n: Node, id: nat)
    requires b < |t|
    ensures HeldFrom(Prepend(t, b, n), 0, id) == HeldFrom(t, 0, id) + HeldBy(n, id)
  {
    HeldBucket(t, b, [n] + t[b], 0, id);
    HeldConcat([n], t[b], id);
    assert HeldIn([n], id) == HeldBy(n, id);
  }

  lemma HeldSplit(l: seq<Node>, i: nat, id: nat)
    requires i < |l|
    ensures HeldIn(l, id) == HeldIn(l[..i], id) + HeldBy(l[i], id) + HeldIn(l[i + 1..], id)
  {
    assert l == l[..i] + ([l[i]] + l[i + 1..]);
    HeldConcat(l[..i], [l[i]] + l[i + 1..], id);
    HeldConcat([l[i]], l[i + 1..], id);
    assert HeldIn([l[i]], id) == HeldBy(l[i], id);
  }

  lemma HeldRemove(t: Table, b: nat, i: nat, id: nat)
    requires b < |t| && i < |t[b]|
    ensures HeldFrom(Remove(t, b, i), 0, id) + HeldBy(t[b][i], id) == HeldFrom(t, 0, id)
  {
    HeldBucket(t, b, t[b][..i] + t[b][i + 1..], 0, id);
    HeldSplit(t[b], i, id);
    HeldConcat(t[b][..i], t[b][i + 1..], id);
  }

  lemma HeldChange(t: Table, b: nat, i: nat, n: Node, id: nat)
    requires b < |t| && i < |t[b]|
    ensures HeldFrom(Change(t, b, i, n), 0, id) + HeldBy(t[b][i], id) == HeldFrom(t, 0, id) + HeldBy(n, id)
  {
    var l := t[b][i := n];
    HeldBucket(t, b, l, 0, id);
    HeldSplit(t[b], i, id);
    HeldSplit(l, i, id);
    assert l[..i] == t[b][..i] && l[i + 1..] == t[b][i + 1..];
  }

  lemma {:induction false} HeldPlaceAll(t: Table, l: seq<Node>, id: nat)
    requires PowerOfTwo(|t|)
    ensures HeldFrom(PlaceAll(t, l), 0, id) == HeldFrom(t, 0, id) + HeldIn(l, id)
    decreases |l|
  {
    if l != [] {
      MaskIsMod(l[0].hash, |t|);
      var b := And(l[0].hash, |t| - 1);
      HeldPrepend(t, b, l[0], id);
      HeldPlaceAll(Prepend(t, b, l[0]), l[1..], id);
    }
  }

  lemma {:induction false} HeldRehash(src: Table, i: nat, t: Table, id: nat)
    requires PowerOfTwo(|t|) && i <= |src|
    ensures HeldFrom(Rehash(src, i, t), 0, id) == HeldFrom(t, 0, id) + HeldFrom(src, i, id)
    decreases |src| - i
  {
    if i < |src| {
      HeldPlaceAll(t, src[i], id);
      HeldRehash(src, i + 1, PlaceAll(t, src[i]), id);
    }
  }

  lemma {:induction false} HeldNone(n: nat, b: nat, id: nat)
    requires b <= n
    ensures HeldFrom(NoNodes(n), b, id) == 0
    decreases n - b
  {
    if b < n {
      HeldNone(n, b + 1, id);
    }
  }

  lemma HeldEnlarged(t: Table, id: nat)
    requires PowerOfTwo(|t|)
    ensures HeldFrom(Enlarged(t), 0, id) == HeldFrom(t, 0, id)
  {
    HeldNone(2 * |t|, 0, id);
    assert 2 * |t| / 2 == |t|;
    HeldRehash(t, 0, NoNodes(2 * |t|), id);
  }

  /** What comes in is returned or held, and what was held is returned or still held. */
  lemma LinkifyConserves(t: Table, s: Strategy, e: Option<Entry>, id: nat)
    requires Fitting(t, s)
    ensures var o := Linkify(t, s, e);
            Ids(Outputs(o), id) + HeldFrom(o.table, 0, id) == HeldFrom(t, 0, id) + if e.Some? then One(e.value, id) else 0
  {
    if e.None? {
      var p := NextAt(t, 0, DEFERRED);
      if p.Some? {
        HeldRemove(t, p.value.bucket, p.value.index, id);
      }
    } else if !Untracked(e.value) && s != LikeOldCpio {
      MatchConserves(t, s, e.value, id);
    }
  }

  lemma OutputIds(o: Outcome, id: nat)
    ensures Ids(Outputs(o), id) ==
            (if o.e.Some? then One(o.e.value, id) else 0) + if o.f.Some? then One(o.f.value, id) else 0
  {
    var a := if o.e.Some? then [o.e.value] else [];
    var b := if o.f.Some? then [o.f.value] else [];
    IdsConcat(a, b, id);
  }

  lemma MatchConserves(t: Table, s: Strategy, e: Entry, id: nat)
    requires Fitting(t, s) && s != LikeOldCpio
    ensures Ids(Outputs(Match(t, s, e)), id) + HeldFrom(Match(t, s, e).table, 0, id) == HeldFrom(t, 0, id) + One(e, id)
  {
    hide FindIn;
    hide And;
    hide Hash;
    var p := Locate(t, e);
    var o := Match(t, s, e);
    var held := if s == LikeNewCpio then Some(e) else None;
    OutputIds(o, id);
    if p.Some? {
      var b, i := p.value.bucket, p.value.index;
      assert NodeOk(t, b, i) && Held(t, s, b, i);
      var n := t[b][i];
      if n.links == 1 {
        HeldRemove(t, b, i, id);
      } else {
        HeldChange(t, b, i, n.(links := n.links - 1, entry := held), id);
      }
    } else if KeyOf(e).Some? {
      HeldEnlarged(t, id);
      var r := Enlarged(t);
      MaskIsMod(NewNode(e, held).hash, |r|);
      HeldPrepend(r, And(NewNode(e, held).hash, |r| - 1), NewNode(e, held), id);
    }
  }

  lemma {:induction false} RunConserves(t: Table, s: Strategy, inputs: seq<Entry>, id: nat)
    requires Reachable(t, s)
    ensures Ids(Run(t, s, inputs).1, id) + HeldFrom(Run(t, s, inputs).0, 0, id) == HeldFrom(t, 0, id) + Ids(inputs, id)
    decreases |inputs|
  {
    hide Linkify;
    hide HeldFrom;
    if inputs != [] {
      LinkifyReachable(t, s, inputs[0]);
      LinkifyConserves(t, s, Some(inputs[0]), id);
      var o := Linkify(t, s, Some(inputs[0]));
      RunConserves(o.table, s, inputs[1..], id);
      IdsConcat(Outputs(o), Run(o.table, s, inputs[1..]).1, id);
    }
  }

  lemma {:induction false} DrainConserves(t: Table, s: Strategy, id: nat)
    requires Reachable(t, s)
    ensures Ids(Drain(t, s), id) == HeldFrom(t, 0, id)
    decreases Size(t, 0)
  {
    DrainReachable(t, s);
    LinkifyConserves(t, s, None, id);
    var o := Linkify(t, s, None);
    if o.e.Some? {
      DrainConserves(o.table, s, id);
      IdsConcat([o.e.value], Drain(o.table, s), id);
    } else {
      NothingHeld(t, 0, id);
    }
  }

  lemma {:induction false} NothingHeld(t: Table, b: nat, id: nat)
    requires b <= |t| && forall c, i :: b <= c < |t| && 0 <= i < |t[c]| ==> !Wanted(t[c][i], DEFERRED)
    ensures HeldFrom(t, b, id) == 0
    decreases |t| - b
  {
    if b < |t| {
      NothingHeld(t, b + 1, id);
      assert forall i :: 0 <= i < |t[b]| ==> !Wanted(t[b][i], DEFERRED);
      NoneHeld(t[b], id);
    }
  }

  lemma {:induction false} NoneHeld(l: seq<Node>, id: nat)
    requires forall i :: 0 <= i < |l| ==> !Wanted(l[i], DEFERRED)
    ensures HeldIn(l, id) == 0
  {
    if l != [] {
      assert forall i :: 0 <= i < |l[1..]| ==> !Wanted(l[1..][i], DEFERRED);
      NoneHeld(l[1..], id);
      assert !Wanted(l[0], DEFERRED);
    }
  }

  /** Over any run followed by draining, every entry is returned exactly as often as it was passed in. */
  lemma ConservationLaw(t: Table, s: Strategy, inputs: seq<Entry>, id: nat)
    requires Reachable(t, s) && HeldFrom(t, 0, id) == 0
    ensures Ids(Whole(t, s, inputs), id) == Ids(inputs, id)
  {
    RunReachable(t, s, inputs);
    RunConserves(t, s, inputs, id);
    DrainConserves(Run(t, s, inputs).0, s, id);
    IdsConcat(Run(t, s, inputs).1, Drain(Run(t, s, inputs).0, s), id);
  }
}
