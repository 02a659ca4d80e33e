/** The hardlink resolver as a function of its table: one call, whole runs, and what the runs return. */
module LinkProtocol {
  import opened Bits
  import opened Options
  import opened Words
  import opened LinkTable

  datatype Strategy = LikeTar | LikeMtree | LikeOldCpio | LikeNewCpio

  datatype Place = Place(bucket: nat, index: nat)

  datatype Outcome = Outcome(table: Table, e: Option<Entry>, f: Option<Entry>)

  const DEFERRED: nat := 1
  const PARTIAL: nat := 2

  /** Files with one link, directories and devices are never matched up. */
  predicate Untracked(e: Entry) {
    e.nlink == 1 || e.filetype == Directory || e.filetype == BlockDevice || e.filetype == CharDevice
  }

  /** The entry turned into a hardlink to `target`, its body elsewhere. */
  function AsLink(e: Entry, target: string): Entry {
    e.(size := None, hardlink := Some(target))
  }

  /** `mtree` keeps the size. */
  function AsTarLink(s: Strategy, e: Entry, target: string): Entry {
    if s == LikeTar then AsLink(e, target) else e.(hardlink := Some(target))
  }

  function NewNode(e: Entry, held: Option<Entry>): Node
    requires KeyOf(e).Some?
  {
    Node(e, held, Hash(KeyOf(e).value), if e.nlink == 0 then 0xFFFF_FFFF else e.nlink - 1)
  }

  function Size(t: Table, i: nat): nat
    requires i <= |t|
    decreases |t| - i
  {
    if i == |t| then 0 else |t[i]| + Size(t, i + 1)
  }

  function Locate(t: Table, e: Entry): (p: Option<Place>)
    requires PowerOfTwo(|t|)
    ensures p.Some? ==> p.value.bucket < |t| && p.value.index < |t[p.value.bucket]|
  {
    if KeyOf(e).None? then None else
      var k := KeyOf(e).value;
      SlotInRange(k, |t|);
      var b := Slot(k, |t|);
      var i := FindIn(t[b], k);
      if i < |t[b]| then Some(Place(b, i)) else None
  }

  /** One link less to wait for; a node that waits for none is taken out. `held` is what it holds from now on. */
  function CountDown(t: Table, p: Place, held: Option<Entry>): Table
    requires p.bucket < |t| && p.index < |t[p.bucket]| && t[p.bucket][p.index].links > 0
  {
    var n := t[p.bucket][p.index];
    if n.links == 1 then Remove(t, p.bucket, p.index)
    else Change(t, p.bucket, p.index, n.(links := n.links - 1, entry := held))
  }

  /** The table enlarged when it is getting too full. */
  function Enlarged(t: Table): (r: Table)
    requires PowerOfTwo(|t|)
    ensures PowerOfTwo(|r|)
  {
    if Size(t, 0) / 2 > |t| && 2 * |t| <= SIZE_MAX then Grow(t) else t
  }

  function Insert(t: Table, e: Entry, held: Option<Entry>): (r: Table)
    requires PowerOfTwo(|t|) && KeyOf(e).Some?
    ensures PowerOfTwo(|r|)
  {
    var r := Enlarged(t);
    var n := NewNode(e, held);
    MaskIsMod(n.hash, |r|);
    Prepend(r, And(n.hash, |r| - 1), n)
  }

  predicate Wanted(n: Node, mode: nat) {
    if n.entry.Some? then mode % 2 == 1 else mode / 2 % 2 == 1
  }

  function FirstIn(l: seq<Node>, mode: nat): (i: nat)
    ensures i <= |l| && (i < |l| ==> Wanted(l[i], mode)) && forall j :: 0 <= j < i ==> !Wanted(l[j], mode)
  {
    if l == [] then 0 else if Wanted(l[0], mode) then 0 else 1 + FirstIn(l[1..], mode)
  }

  /** The first node wanted, bucket by bucket. */
  function NextAt(t: Table, b: nat, mode: nat): (p: Option<Place>)
    requires b <= |t|
    ensures p.Some? ==> p.value.bucket < |t| && p.value.index < |t[p.value.bucket]|
    ensures p.Some? ==> Wanted(t[p.value.bucket][p.value.index], mode)
    ensures p.None? ==> forall c, i :: b <= c < |t| && 0 <= i < |t[c]| ==> !Wanted(t[c][i], mode)
    decreases |t| - b
  {
    if b == |t| then None
    else
      var i := FirstIn(t[b], mode);
      if i < |t[b]| then Some(Place(b, i)) else NextAt(t, b + 1, mode)
  }

  ghost predicate Held(t: Table, s: Strategy, b: nat, i: nat) {
    b < |t| && i < |t[b]| ==> (t[b][i].entry.Some? <==> s == LikeNewCpio)
  }

  /** A table used with one strategy only. */
  ghost predicate Fitting(t: Table, s: Strategy) {
    WellFormed(t) && forall b, i :: Held(t, s, b, i)
  }

  /** One call of archive_entry_linkify. */
  ghost function Linkify(t: Table, s: Strategy, e: Option<Entry>): Outcome
    requires Fitting(t, s)
  {
    if e.None? then
      var p := NextAt(t, 0, DEFERRED);
      if p.None? then Outcome(t, None, None)
      else Outcome(Remove(t, p.value.bucket, p.value.index), t[p.value.bucket][p.value.index].entry, None)
    else if Untracked(e.value) || s == LikeOldCpio then Outcome(t, e, None)
    else Match(t, s, e.value)
  }

  ghost function Match(t: Table, s: Strategy, e: Entry): Outcome
    requires Fitting(t, s) && s != LikeOldCpio
  {
    var p := Locate(t, e);
    if p.Some? then
      assert NodeOk(t, p.value.bucket, p.value.index) && Held(t, s, p.value.bucket, p.value.index);
      var n := t[p.value.bucket][p.value.index];
      var target := n.canonical.pathname;
      if s != LikeNewCpio then Outcome(CountDown(t, p.value, None), Some(AsTarLink(s, e, target)), None)
      else
        Outcome(CountDown(t, p.value, Some(e)), Some(AsLink(n.entry.value, target)), if n.links == 1 then Some(e) else None)
    else if KeyOf(e).None? then Outcome(t, Some(e), None)
    else if s != LikeNewCpio then Outcome(Insert(t, e, None), Some(e), None)
    else Outcome(Insert(t, e, Some(e)), None, None)
  }

  // ---------- the same on a map ----------

  ghost predicate MapFits(m: map<Key, Node>, s: Strategy) {
    forall k :: k in m ==> (m[k].entry.Some? <==> s == LikeNewCpio) && m[k].links > 0
  }

  lemma FitsMap(t: Table, m: map<Key, Node>, s: Strategy)
    requires Refines(t, m)
    ensures Fitting(t, s) <==> MapFits(m, s)
  {
    hide Hash;
    hide And;
    forall k | k in m ensures Fitting(t, s) ==> (m[k].entry.Some? <==> s == LikeNewCpio)
                      ensures m[k].links > 0
    {
      LookupIs(t, m, k);
      var b := Slot(k, |t|);
      var i := FindIn(t[b], k);
      assert NodeOk(t, b, i);
      assert Fitting(t, s) ==> Held(t, s, b, i);
    }
    forall b: nat, i: nat ensures MapFits(m, s) ==> Held(t, s, b, i) {
      assert InMap(t, m, b, i);
    }
  }

  /** What becomes of one key, and what is returned, when one of its entries comes in. */
  ghost function Turn(n: Option<Node>, s: Strategy, e: Entry): (Option<Node>, seq<Entry>)
    requires KeyOf(e).Some? && (n.Some? ==> n.value.links > 0 && (n.value.entry.Some? <==> s == LikeNewCpio))
  {
    if n.None? then
      if s == LikeNewCpio then (Some(NewNode(e, Some(e))), []) else (Some(NewNode(e, None)), [e])
    else
      var target := n.value.canonical.pathname;
      var rest := if n.value.links == 1 then None
                  else Some(n.value.(links := n.value.links - 1, entry := if s == LikeNewCpio then Some(e) else None));
      if s == LikeNewCpio then
        (rest, [AsLink(n.value.entry.value, target)] + if n.value.links == 1 then [e] else [])
      else (rest, [AsTarLink(s, e, target)])
  }

  ghost function Get(m: map<Key, Node>, k: Key): Option<Node> {
    if k in m then Some(m[k]) else None
  }

  ghost function Put(m: map<Key, Node>, k: Key, n: Option<Node>): map<Key, Node> {
    if n.Some? then m[k := n.value] else m - {k}
  }

  function Outputs(o: Outcome): seq<Entry> {
    (if o.e.Some? then [o.e.value] else []) + if o.f.Some? then [o.f.value] else []
  }

  lemma EnlargedRefines(t: Table, m: map<Key, Node>)
    requires Refines(t, m)
    ensures PowerOfTwo(|t|) && Refines(Enlarged(t), m)
  {
    hide Refines;
    RefinesWell(t, m);
    GrowRefines(t, m);
  }

  /** A tracked entry takes one turn with the node of its key; no other key is touched. */
  lemma MatchRefines(t: Table, m: map<Key, Node>, s: Strategy, e: Entry)
    requires Refines(t, m) && Fitting(t, s) && s != LikeOldCpio && !Untracked(e) && KeyOf(e).Some?
    ensures var k := KeyOf(e).value;
            && (Get(m, k).Some? ==>
              Get(m, k).value.links > 0 && (Get(m, k).value.entry.Some? <==> s == LikeNewCpio))
            && var (n, out) := Turn(Get(m, k), s, e);
              Refines(Match(t, s, e).table, Put(m, k, n)) && Outputs(Match(t, s, e)) == out
  {
    hide Refines;
    hide Hash;
    hide And;
    hide Slot;
    FitsMap(t, m, s);
    var k := KeyOf(e).value;
    LookupIs(t, m, k);
    var p := Locate(t, e);
    if p.Some? {
      var b, i := p.value.bucket, p.value.index;
      var n := t[b][i];
      assert NodeOk(t, b, i) && Held(t, s, b, i);
      if n.links == 1 {
        RemoveRefines(t, m, b, i);
      } else {
        ChangeRefines(t, m, b, i, n.(links := n.links - 1, entry := if s == LikeNewCpio then Some(e) else None));
      }
    } else {
      EnlargedRefines(t, m);
      var r := Enlarged(t);
      PrependRefines(r, m, NewNode(e, if s == LikeNewCpio then Some(e) else None));
    }
  }

  /** Draining takes one held node out and returns its entry, or finds nothing held. */
  lemma DrainRefines(t: Table, m: map<Key, Node>, s: Strategy)
    requires Refines(t, m) && Fitting(t, s)
    ensures var o := Linkify(t, s, None);
            o.f.None? && if o.e.Some? then
              exists k :: k in m && m[k].entry == o.e && Refines(o.table, m - {k}) && Size(o.table, 0) < Size(t, 0)
            else o.table == t && forall k :: k in m ==> m[k].entry.None?
  {
    hide Refines;
    hide Hash;
    hide And;
    hide Slot;
    var p := NextAt(t, 0, DEFERRED);
    if p.Some? {
      var b, i := p.value.bucket, p.value.index;
      RemoveRefines(t, m, b, i);
      FoundIs(t, m, b, i);
      RemoveSize(t, b, i, 0);
    } else {
      forall k | k in m ensures m[k].entry.None? {
        LookupIs(t, m, k);
      }
    }
  }

  lemma FoundIs(t: Table, m: map<Key, Node>, b: nat, i: nat)
    requires Refines(t, m) && b < |t| && i < |t[b]| && KeyOf(t[b][i].canonical).Some?
    requires KeyOf(t[b][i].canonical).value in m
    ensures m[KeyOf(t[b][i].canonical).value] == t[b][i]
  {
    assert InMap(t, m, b, i);
  }

  lemma {:induction false} RemoveSize(t: Table, b: nat, i: nat, c: nat)
    requires b < |t| && i < |t[b]| && c <= |t|
    ensures Size(Remove(t, b, i), c) == Size(t, c) - if c <= b then 1 else 0
    decreases |t| - c
  {
    if c < |t| {
      RemoveSize(t, b, i, c + 1);
    }
  }

  lemma {:induction false} ChangeSize(t: Table, b: nat, i: nat, n: Node, c: nat)
    requires b < |t| && i < |t[b]| && c <= |t|
    ensures Size(Change(t, b, i, n), c) == Size(t, c)
    decreases |t| - c
  {
    if c < |t| {
      ChangeSize(t, b, i, n, c + 1);
    }
  }

  lemma {:induction false} PrependSize(t: Table, b: nat, n: Node, c: nat)
    requires b < |t| && c <= |t|
    ensures Size(Prepend(t, b, n), c) == Size(t, c) + if c <= b then 1 else 0
    decreases |t| - c
  {
    if c < |t| {
      PrependSize(t, b, n, c + 1);
    }
  }

  lemma {:induction false} PlaceAllSize(t: Table, l: seq<Node>)
    requires PowerOfTwo(|t|)
    ensures Size(PlaceAll(t, l), 0) == Size(t, 0) + |l|
    decreases |l|
  {
    if l != [] {
      MaskIsMod(l[0].hash, |t|);
      PrependSize(t, And(l[0].hash, |t| - 1), l[0], 0);
      PlaceAllSize(Prepend(t, And(l[0].hash, |t| - 1), l[0]), l[1..]);
    }
  }

  lemma {:induction false} RehashSize(src: Table, i: nat, t: Table)
    requires PowerOfTwo(|t|) && i <= |src|
    ensures Size(Rehash(src, i, t), 0) == Size(t, 0) + Size(src, i)
    decreases |src| - i
  {
    if i < |src| {
      PlaceAllSize(t, src[i]);
      RehashSize(src, i + 1, PlaceAll(t, src[i]));
    }
  }

  lemma {:induction false} NoneSize(n: nat, c: nat)
    requires c <= n
    ensures Size(NoNodes(n), c) == 0
    decreases n - c
  {
    if c < n {
      NoneSize(n, c + 1);
    }
  }

  lemma GrowSize(t: Table)
    requires PowerOfTwo(|t|)
    ensures Size(Grow(t), 0) == Size(t, 0)
  {
    assert 2 * |t| / 2 == |t|;
    NoneSize(2 * |t|, 0);
    RehashSize(t, 0, NoNodes(2 * |t|));
  }
}
