/** The hash table of the hardlink resolver, as a sequence of buckets: what it refines, and what its operations do. */
module LinkTable {
  import opened Bits
  import opened Options
  import opened Words

  datatype Filetype = Regular | Symlink | Socket | CharDevice | BlockDevice | Directory | Fifo

  /** What the resolver looks at or changes in an archive entry; `id` stands for the entry object. */
  datatype Entry = Entry(
    id: nat, pathname: string, nlink: Word, filetype: Filetype, dev: Option<nat>, ino: Option<nat>, size: Option<nat>,
    hardlink: Option<string>)

  datatype Key = Key(dev: nat, ino: nat)

  datatype Node = Node(canonical: Entry, entry: Option<Entry>, hash: nat, links: Word)

  type Table = seq<seq<Node>>

  function KeyOf(e: Entry): Option<Key> {
    if e.dev.Some? && e.ino.Some? then Some(Key(e.dev.value, e.ino.value)) else None
  }

  function Hash(k: Key): nat {
    Xor(k.dev, k.ino)
  }

  /** The hash and one of the two numbers give the other. */
  lemma HashShows(k: Key)
    ensures Xor(Hash(k), k.ino) == k.dev && Xor(k.dev, Hash(k)) == k.ino
  {
    XorTwice(k.dev, k.ino);
    XorOther(k.dev, k.ino);
  }

  // ---------- lookup ----------

  function Slot(k: Key, n: nat): nat
    requires n > 0
  {
    And(Hash(k), n - 1)
  }

  predicate Matches(n: Node, k: Key) {
    n.hash == Hash(k) && n.canonical.dev == Some(k.dev) && n.canonical.ino == Some(k.ino)
  }

  /** The position of the first node for `k`, or the length of the bucket. */
  function FindIn(l: seq<Node>, k: Key): (i: nat)
    ensures i <= |l| && (i < |l| ==> Matches(l[i], k)) && forall j :: 0 <= j < i ==> !Matches(l[j], k)
  {
    if l == [] then 0 else if Matches(l[0], k) then 0 else 1 + FindIn(l[1..], k)
  }

  /** A node lies in the bucket of its hash, and waits for at least one more link. */
  ghost predicate NodeOk(t: Table, b: nat, i: nat) {
    b < |t| && i < |t[b]| ==>
      var n := t[b][i];
      KeyOf(n.canonical).Some? && n.hash == Hash(KeyOf(n.canonical).value) && And(n.hash, |t| - 1) == b && n.links > 0
  }

  ghost predicate DistinctOk(t: Table, b: nat, i: nat, j: nat) {
    b < |t| && i < j < |t[b]| ==> KeyOf(t[b][i].canonical) != KeyOf(t[b][j].canonical)
  }

  ghost predicate WellFormed(t: Table) {
    PowerOfTwo(|t|) && (forall b, i :: NodeOk(t, b, i)) && (forall b, i, j :: DistinctOk(t, b, i, j))
  }

  ghost predicate InMap(t: Table, m: map<Key, Node>, b: nat, i: nat) {
    b < |t| && i < |t[b]| ==>
      KeyOf(t[b][i].canonical).Some? && KeyOf(t[b][i].canonical).value in m && m[KeyOf(t[b][i].canonical).value] == t[b][i]
  }

  ghost predicate InTable(t: Table, m: map<Key, Node>, k: Key) {
    k in m && |t| > 0 && Slot(k, |t|) < |t| ==>
      var l := t[Slot(k, |t|)];
      FindIn(l, k) < |l| && l[FindIn(l, k)] == m[k]
  }

  /** The table holds exactly the nodes of the map, one for each key. */
  ghost predicate Refines(t: Table, m: map<Key, Node>) {
    WellFormed(t) && (forall b, i :: InMap(t, m, b, i)) && (forall k :: InTable(t, m, k))
  }

  lemma SlotInRange(k: Key, n: nat)
    requires PowerOfTwo(n)
    ensures Slot(k, n) < n
  {
    MaskIsMod(Hash(k), n);
  }

  /** Looking a key up in the table is looking it up in the map. */
  lemma LookupIs(t: Table, m: map<Key, Node>, k: Key)
    requires Refines(t, m)
    ensures |t| > 0 && Slot(k, |t|) < |t|
    ensures var l := t[Slot(k, |t|)];
            (FindIn(l, k) < |l| <==> k in m) && (k in m ==> l[FindIn(l, k)] == m[k])
  {
    SlotInRange(k, |t|);
    var b := Slot(k, |t|);
    var i := FindIn(t[b], k);
    if i < |t[b]| {
      assert NodeOk(t, b, i) && InMap(t, m, b, i);
      assert KeyOf(t[b][i].canonical) == Some(k);
    }
    assert InTable(t, m, k);
  }

  /** A node found by its position is found by its key. */
  lemma FoundAt(t: Table, b: nat, i: nat)
    requires WellFormed(t) && b < |t| && i < |t[b]|
    ensures KeyOf(t[b][i].canonical).Some?
    ensures var k := KeyOf(t[b][i].canonical).value;
            |t| > 0 && Slot(k, |t|) == b && FindIn(t[b], k) == i
  {
    assert NodeOk(t, b, i);
    var k := KeyOf(t[b][i].canonical).value;
    var j := FindIn(t[b], k);
    assert Matches(t[b][i], k) && j <= i;
    assert NodeOk(t, b, j) && DistinctOk(t, b, j, i);
  }

  // ---------- inserting, changing and removing ----------

  function Prepend(t: Table, b: nat, n: Node): Table
    requires b < |t|
  {
    t[b := [n] + t[b]]
  }

  function Change(t: Table, b: nat, i: nat, n: Node): Table
    requires b < |t| && i < |t[b]|
  {
    t[b := t[b][i := n]]
  }

  function Remove(t: Table, b: nat, i: nat): Table
    requires b < |t| && i < |t[b]|
  {
    t[b := t[b][..i] + t[b][i + 1..]]
  }

  /** A node with a key not in the map, in its bucket. */
  ghost predicate Fits(t: Table, m: map<Key, Node>, b: nat, n: Node) {
    && Refines(t, m) && KeyOf(n.canonical).Some? && n.links > 0 && b == And(n.hash, |t| - 1) < |t|
    && n.hash == Hash(KeyOf(n.canonical).value) && KeyOf(n.canonical).value !in m
  }

  lemma PrependRefines(t: Table, m: map<Key, Node>, n: Node)
    requires Refines(t, m) && KeyOf(n.canonical).Some? && n.links > 0
    requires n.hash == Hash(KeyOf(n.canonical).value) && KeyOf(n.canonical).value !in m
    ensures And(n.hash, |t| - 1) < |t|
    ensures Refines(Prepend(t, And(n.hash, |t| - 1), n), m[KeyOf(n.canonical).value := n])
  {
    hide Hash;
    hide And;
    hide PowerOfTwo;
    hide Prepend;
    var key := KeyOf(n.canonical).value;
    SlotInRange(key, |t|);
    var c := And(n.hash, |t| - 1);
    var r, m' := Prepend(t, c, n), m[key := n];
    forall b: nat, i: nat ensures NodeOk(r, b, i) && InMap(r, m', b, i) {
      PrependNode(t, m, c, n, b, i);
    }
    forall b: nat, i: nat, j: nat ensures DistinctOk(r, b, i, j) {
      PrependDistinct(t, m, c, n, b, i, j);
    }
    forall k: Key ensures InTable(r, m', k) {
      PrependFind(t, m, c, n, k);
    }
    assert PowerOfTwo(|r|) by {
      PrependLength(t, c, n);
    }
  }

  lemma PrependLength(t: Table, b: nat, n: Node)
    requires b < |t|
    ensures |Prepend(t, b, n)| == |t|
  {
  }

  lemma PrependNode(t: Table, m: map<Key, Node>, c: nat, n: Node, b: nat, i: nat)
    requires Fits(t, m, c, n)
    ensures NodeOk(Prepend(t, c, n), b, i) && InMap(Prepend(t, c, n), m[KeyOf(n.canonical).value := n], b, i)
  {
    hide Hash;
    hide And;
    hide FindIn;
    if b == c && i > 0 {
      assert NodeOk(t, b, i - 1) && InMap(t, m, b, i - 1);
    } else {
      assert NodeOk(t, b, i) && InMap(t, m, b, i);
    }
  }

  lemma PrependDistinct(t: Table, m: map<Key, Node>, c: nat, n: Node, b: nat, i: nat, j: nat)
    requires Fits(t, m, c, n)
    ensures DistinctOk(Prepend(t, c, n), b, i, j)
  {
    hide Hash;
    hide And;
    hide FindIn;
    if b != c {
      assert DistinctOk(t, b, i, j);
    } else if 0 < i < j {
      assert DistinctOk(t, b, i - 1, j - 1);
    } else if i < j {
      assert InMap(t, m, b, j - 1);
    }
  }

  lemma PrependFind(t: Table, m: map<Key, Node>, c: nat, n: Node, k: Key)
    requires Fits(t, m, c, n)
    ensures InTable(Prepend(t, c, n), m[KeyOf(n.canonical).value := n], k)
  {
    hide Hash;
    hide And;
    assert InTable(t, m, k);
    FindPrepended(n, t[c], k);
  }

  lemma FindPrepended(n: Node, l: seq<Node>, k: Key)
    ensures FindIn([n] + l, k) == if Matches(n, k) then 0 else 1 + FindIn(l, k)
  {
    assert ([n] + l)[1..] == l;
  }

  /** The key and the place of a node stay when its links or its entry change. */
  lemma ChangeRefines(t: Table, m: map<Key, Node>, b: nat, i: nat, n: Node)
    requires Refines(t, m) && b < |t| && i < |t[b]| && n.links > 0
    requires n.canonical == t[b][i].canonical && n.hash == t[b][i].hash
    ensures KeyOf(n.canonical).Some? && KeyOf(n.canonical).value in m
    ensures Refines(Change(t, b, i, n), m[KeyOf(n.canonical).value := n])
  {
    hide Hash;
    hide And;
    FoundAt(t, b, i);
    assert InMap(t, m, b, i);
    var key := KeyOf(n.canonical).value;
    var r, m' := Change(t, b, i, n), m[key := n];
    forall c: nat, j: nat ensures NodeOk(r, c, j) && InMap(r, m', c, j) {
      assert NodeOk(t, c, j) && InMap(t, m, c, j);
      if c < |t| && j < |t[c]| && !(c == b && j == i) {
        FoundAt(t, c, j);
      }
    }
    forall c: nat, j: nat, k: nat ensures DistinctOk(r, c, j, k) {
      assert DistinctOk(t, c, j, k);
    }
    forall k: Key ensures InTable(r, m', k) {
      assert InTable(t, m, k);
      if k == key {
        FindChanged(t[b], i, n, k);
      } else if k in m {
        SlotInRange(k, |t|);
        var c := Slot(k, |t|);
        if c == b {
          FindChanged(t[b], i, n, k);
        }
      }
    }
  }

  lemma {:induction false} FindChanged(l: seq<Node>, i: nat, n: Node, k: Key)
    requires i < |l| && n.canonical == l[i].canonical && n.hash == l[i].hash
    ensures FindIn(l[i := n], k) == FindIn(l, k)
  {
    var a, b := FindIn(l, k), FindIn(l[i := n], k);
    assert forall j :: 0 <= j < |l| ==> (Matches(l[j], k) <==> Matches(l[i := n][j], k));
  }

  lemma RemoveRefines(t: Table, m: map<Key, Node>, b: nat, i: nat)
    requires Refines(t, m) && b < |t| && i < |t[b]|
    ensures KeyOf(t[b][i].canonical).Some? && KeyOf(t[b][i].canonical).value in m
    ensures Refines(Remove(t, b, i), m - {KeyOf(t[b][i].canonical).value})
  {
    hide Hash;
    hide And;
    FoundAt(t, b, i);
    assert InMap(t, m, b, i);
    var key := KeyOf(t[b][i].canonical).value;
    var r, m' := Remove(t, b, i), m - {key};
    forall c: nat, j: nat ensures NodeOk(r, c, j) && InMap(r, m', c, j) {
      var j' := if c == b && j >= i then j + 1 else j;
      assert NodeOk(t, c, j') && InMap(t, m, c, j');
      if c < |t| && j' < |t[c]| {
        FoundAt(t, c, j');
      }
    }
    forall c: nat, j: nat, k: nat ensures DistinctOk(r, c, j, k) {
      assert DistinctOk(t, c, if c == b && j >= i then j + 1 else j, if c == b && k >= i then k + 1 else k);
    }
    forall k: Key ensures InTable(r, m', k) {
      assert InTable(t, m, k);
      if k in m' {
        SlotInRange(k, |t|);
        var c := Slot(k, |t|);
        if c == b {
          FindRemoved(t[b], i, k);
        }
      }
    }
  }

  lemma FindRemoved(l: seq<Node>, i: nat, k: Key)
    requires i < |l| && !Matches(l[i], k) && FindIn(l, k) < |l|
    ensures var r := l[..i] + l[i + 1..];
            FindIn(r, k) < |r| && r[FindIn(r, k)] == l[FindIn(l, k)]
  {
    var r := l[..i] + l[i + 1..];
    var f := FindIn(l, k);
    forall j | 0 <= j < |r| ensures r[j] == l[if j < i then j else j + 1] {
    }
    assert Matches(r[if f < i then f else f - 1], k);
  }

  // ---------- growing ----------

  /** Moves the nodes of one old bucket, front first, to the front of their new buckets. */
  function PlaceAll(t: Table, l: seq<Node>): (r: Table)
    requires PowerOfTwo(|t|)
    ensures |r| == |t|
    decreases |l|
  {
    if l == [] then t else
      MaskIsMod(l[0].hash, |t|);
      PlaceAll(Prepend(t, And(l[0].hash, |t| - 1), l[0]), l[1..])
  }

  function Rehash(src: Table, i: nat, t: Table): (r: Table)
    requires PowerOfTwo(|t|) && i <= |src|
    ensures |r| == |t|
    decreases |src| - i
  {
    if i == |src| then t else Rehash(src, i + 1, PlaceAll(t, src[i]))
  }

  function NoNodes(n: nat): Table {
    seq(n, _ => [])
  }

  function Grow(t: Table): (r: Table)
    requires PowerOfTwo(|t|)
    ensures |r| == 2 * |t| && PowerOfTwo(|r|)
  {
    assert 2 * |t| / 2 == |t|;
    Rehash(t, 0, NoNodes(2 * |t|))
  }

  function AddAll(m: map<Key, Node>, l: seq<Node>): map<Key, Node>
    decreases |l|
  {
    if l == [] || KeyOf(l[0].canonical).None? then m else AddAll(m[KeyOf(l[0].canonical).value := l[0]], l[1..])
  }

  /** A node fit to be moved, of a key not moved yet. */
  ghost predicate Movable(m: map<Key, Node>, l: seq<Node>, i: nat) {
    i < |l| ==>
      && KeyOf(l[i].canonical).Some? && l[i].hash == Hash(KeyOf(l[i].canonical).value) && l[i].links > 0
      && KeyOf(l[i].canonical).value !in m
      && forall j :: 0 <= j < i ==> KeyOf(l[j].canonical) != KeyOf(l[i].canonical)
  }

  lemma {:induction false} PlaceAllRefines(t: Table, m: map<Key, Node>, l: seq<Node>)
    requires Refines(t, m) && forall i :: Movable(m, l, i)
    ensures PowerOfTwo(|t|) && Refines(PlaceAll(t, l), AddAll(m, l))
    decreases |l|
  {
    hide Refines;
    hide Hash;
    hide And;
    RefinesWell(t, m);
    if l != [] {
      assert Movable(m, l, 0);
      var key := KeyOf(l[0].canonical).value;
      var m' := m[key := l[0]];
      PrependRefines(t, m, l[0]);
      forall i: nat ensures Movable(m', l[1..], i) {
        assert Movable(m, l, i + 1);
      }
      PlaceAllRefines(Prepend(t, And(l[0].hash, |t| - 1), l[0]), m', l[1..]);
    }
  }

  lemma RefinesWell(t: Table, m: map<Key, Node>)
    requires Refines(t, m)
    ensures WellFormed(t)
  {
  }

  lemma {:induction false} AddedKeys(m: map<Key, Node>, l: seq<Node>, k: Key)
    requires forall i :: Movable(m, l, i)
    ensures k in AddAll(m, l) <==> k in m || exists i :: 0 <= i < |l| && KeyOf(l[i].canonical) == Some(k)
    ensures k in m ==> k in AddAll(m, l) && AddAll(m, l)[k] == m[k]
    ensures forall i :: 0 <= i < |l| && KeyOf(l[i].canonical) == Some(k) ==> k in AddAll(m, l) && AddAll(m, l)[k] == l[i]
    decreases |l|
  {
    if l != [] {
      assert Movable(m, l, 0);
      var m' := m[KeyOf(l[0].canonical).value := l[0]];
      forall i: nat ensures Movable(m', l[1..], i) {
        assert Movable(m, l, i + 1);
      }
      AddedKeys(m', l[1..], k);
      forall i | 0 < i < |l| && KeyOf(l[i].canonical) == Some(k) ensures l[1..][i - 1] == l[i] && k !in m {
        assert Movable(m, l, i);
      }
    }
  }

  /** The part of the map whose buckets have been moved. */
  ghost function Moved(m: map<Key, Node>, n: nat, i: nat): map<Key, Node>
    requires n > 0
  {
    map k | k in m && Slot(k, n) < i :: m[k]
  }

  lemma {:induction false} RehashRefines(src: Table, m: map<Key, Node>, i: nat, t: Table)
    requires Refines(src, m) && i <= |src| && PowerOfTwo(|src|) && Refines(t, Moved(m, |src|, i)) && PowerOfTwo(|t|)
    ensures Refines(Rehash(src, i, t), m)
    decreases |src| - i
  {
    hide Refines;
    hide Hash;
    hide And;
    if i == |src| {
      forall k | k in m ensures Slot(k, |src|) < i {
        SlotInRange(k, |src|);
      }
      assert Moved(m, |src|, i) == m;
    } else {
      BucketMovable(src, m, i);
      PlaceAllRefines(t, Moved(m, |src|, i), src[i]);
      BucketMoved(src, m, i);
      RehashRefines(src, m, i + 1, PlaceAll(t, src[i]));
    }
  }

  lemma BucketMovable(src: Table, m: map<Key, Node>, i: nat)
    requires Refines(src, m) && i < |src|
    ensures forall j :: Movable(Moved(m, |src|, i), src[i], j)
  {
    hide Hash;
    hide And;
    forall j: nat ensures Movable(Moved(m, |src|, i), src[i], j) {
      if j < |src[i]| {
        assert NodeOk(src, i, j);
        FoundAt(src, i, j);
        forall j': nat | j' < j ensures KeyOf(src[i][j'].canonical) != KeyOf(src[i][j].canonical) {
          assert DistinctOk(src, i, j', j);
        }
      }
    }
  }

  lemma BucketMoved(src: Table, m: map<Key, Node>, i: nat)
    requires Refines(src, m) && i < |src|
    ensures AddAll(Moved(m, |src|, i), src[i]) == Moved(m, |src|, i + 1)
  {
    hide Hash;
    hide And;
    BucketMovable(src, m, i);
    var now, next := AddAll(Moved(m, |src|, i), src[i]), Moved(m, |src|, i + 1);
    forall k: Key ensures k in now <==> k in next
                  ensures k in now && k in next ==> now[k] == next[k]
    {
      AddedKeys(Moved(m, |src|, i), src[i], k);
      if j: nat :| j < |src[i]| && KeyOf(src[i][j].canonical) == Some(k) {
        FoundAt(src, i, j);
        assert InMap(src, m, i, j);
      }
      if k in m {
        LookupIs(src, m, k);
      }
    }
  }

  /** Growing the table changes no lookup. */
  lemma GrowRefines(t: Table, m: map<Key, Node>)
    requires Refines(t, m)
    ensures PowerOfTwo(|t|) && Refines(Grow(t), m)
  {
    var none := NoNodes(2 * |t|);
    assert 2 * |t| / 2 == |t|;
    assert Moved(m, |t|, 0) == map[];
    forall b: nat, i: nat ensures NodeOk(none, b, i) && InMap(none, map[], b, i) {
    }
    forall b: nat, i: nat, j: nat ensures DistinctOk(none, b, i, j) {
    }
    forall k: Key ensures InTable(none, map[], k) {
    }
    RehashRefines(t, m, 0, none);
  }
}
