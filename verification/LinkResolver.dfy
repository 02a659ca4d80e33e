/** The hardlink resolver: a bucket array of doubly linked nodes, proved to be the table of LinkTable. */
module LinkResolver {
  import opened Bits
  import opened Options
  import opened Words
  import opened LinkTable
  import opened LinkProtocol
  import opened LinkRun

  class Link {
    var next: Link?
    var previous: Link?
    var canonical: Entry
    var entry: Option<Entry>
    var hash: nat
    var links: Word

    constructor (canonical: Entry, hash: nat, links: Word)
      ensures Val() == Node(canonical, None, hash, links)
    {
      next := null;
      previous := null;
      this.canonical := canonical;
      this.entry := None;
      this.hash := hash;
      this.links := links;
    }

    ghost function Val(): Node
      reads this
    {
      Node(canonical, entry, hash, links)
    }
  }

  // ---------- the shape of the buckets ----------

  ghost predicate HeadOk(a: array<Link?>, chains: seq<seq<Link>>, b: nat)
    reads a
  {
    b < |chains| && b < a.Length ==> a[b] == if chains[b] == [] then null else chains[b][0]
  }

  ghost predicate LinkOk(chains: seq<seq<Link>>, nodes: set<Link>, b: nat, i: nat)
    reads nodes
  {
    b < |chains| && i < |chains[b]| ==>
      && chains[b][i] in nodes
      && chains[b][i].next == (if i + 1 < |chains[b]| then chains[b][i + 1] else null)
      && chains[b][i].previous == (if i > 0 then chains[b][i - 1] else null)
  }

  ghost predicate Apart(chains: seq<seq<Link>>, b: nat, i: nat, c: nat, j: nat) {
    b < |chains| && i < |chains[b]| && c < |chains| && j < |chains[c]| && chains[b][i] == chains[c][j] ==> b == c && i == j
  }

  /** Each bucket heads its chain, consistently linked both ways; no node occurs twice. */
  ghost predicate Shaped(a: array<Link?>, chains: seq<seq<Link>>, nodes: set<Link>)
    reads a, nodes
  {
    && a.Length == |chains|
    && (forall b :: HeadOk(a, chains, b)) && (forall b, i :: LinkOk(chains, nodes, b, i))
    && (forall b, i, c, j :: Apart(chains, b, i, c, j))
  }

  ghost predicate AllIn(chains: seq<seq<Link>>, nodes: set<Link>) {
    forall b, i :: 0 <= b < |chains| && 0 <= i < |chains[b]| ==> chains[b][i] in nodes
  }

  /** The table that the chains spell out. */
  ghost function Model(chains: seq<seq<Link>>, nodes: set<Link>): (t: Table)
    requires AllIn(chains, nodes)
    reads nodes
    ensures |t| == |chains|
    ensures forall b :: 0 <= b < |t| ==> |t[b]| == |chains[b]|
    ensures forall b, i :: 0 <= b < |t| && 0 <= i < |t[b]| ==> t[b][i] == chains[b][i].Val()
  {
    seq(|chains|, b requires 0 <= b < |chains| reads nodes =>
      seq(|chains[b]|, i requires 0 <= i < |chains[b]| reads nodes => chains[b][i].Val()))
  }

  lemma ShapedIn(a: array<Link?>, chains: seq<seq<Link>>, nodes: set<Link>)
    requires Shaped(a, chains, nodes)
    ensures AllIn(chains, nodes)
  {
    forall b: nat, i: nat | b < |chains| && i < |chains[b]| ensures chains[b][i] in nodes {
      assert LinkOk(chains, nodes, b, i);
    }
  }

  /** The chains without node `i` of one of them. */
  ghost function Without(chains: seq<seq<Link>>, bucket: nat, i: nat): seq<seq<Link>>
    requires bucket < |chains| && i < |chains[bucket]|
  {
    chains[bucket := chains[bucket][..i] + chains[bucket][i + 1..]]
  }

  /** Where a node that stays was before. */
  ghost function Before(bucket: nat, i: nat, b: nat, j: nat): nat {
    if b == bucket && j >= i then j + 1 else j
  }

  lemma WithoutIs(chains: seq<seq<Link>>, bucket: nat, i: nat, b: nat)
    requires bucket < |chains| && i < |chains[bucket]| && b < |chains|
    ensures var r := Without(chains, bucket, i);
            && |r| == |chains| && |r[b]| == |chains[b]| - (if b == bucket then 1 else 0)
            && forall j: nat :: j < |r[b]| ==>
                 Before(bucket, i, b, j) < |chains[b]| && r[b][j] == chains[b][Before(bucket, i, b, j)]
  {
  }

  lemma WithoutApart(chains: seq<seq<Link>>, bucket: nat, i: nat)
    requires bucket < |chains| && i < |chains[bucket]| && forall b, j, c, k :: Apart(chains, b, j, c, k)
    ensures var r := Without(chains, bucket, i);
            && |r| == |chains| && (forall b, j, c, k :: Apart(r, b, j, c, k))
            && forall b, j :: 0 <= b < |r| && 0 <= j < |r[b]| ==> r[b][j] != chains[bucket][i]
  {
    hide Without;
    var r := Without(chains, bucket, i);
    WithoutIs(chains, bucket, i, bucket);
    forall b: nat, j: nat, c: nat, k: nat ensures Apart(r, b, j, c, k) {
      if b < |r| && c < |r| {
        WithoutIs(chains, bucket, i, b);
        WithoutIs(chains, bucket, i, c);
        assert Apart(chains, b, Before(bucket, i, b, j), c, Before(bucket, i, c, k));
      }
    }
    forall b: nat, j: nat | b < |r| && j < |r[b]| ensures r[b][j] != chains[bucket][i] {
      WithoutIs(chains, bucket, i, b);
      assert Apart(chains, b, Before(bucket, i, b, j), bucket, i);
    }
  }

  /** Takes a node out of its chain. */
  method Detach(a: array<Link?>, le: Link, bucket: nat, ghost chains: seq<seq<Link>>, ghost nodes: set<Link>, ghost i: nat)
    returns (ghost chains': seq<seq<Link>>)
    requires Shaped(a, chains, nodes) && bucket < |chains| && i < |chains[bucket]| && le == chains[bucket][i]
    modifies a, nodes
    ensures Shaped(a, chains', nodes) && chains' == Without(chains, bucket, i)
    ensures forall n :: n in nodes ==> n.Val() == old(n.Val())
    ensures forall b, j :: 0 <= b < |chains'| && 0 <= j < |chains'[b]| ==> chains'[b][j] != le
  {
    var l := chains[bucket];
    assert LinkOk(chains, nodes, bucket, i) && HeadOk(a, chains, bucket);
    if i > 0 {
      assert LinkOk(chains, nodes, bucket, i - 1) && Apart(chains, bucket, i - 1, bucket, i);
    }
    if i + 1 < |l| {
      assert LinkOk(chains, nodes, bucket, i + 1) && Apart(chains, bucket, i, bucket, i + 1);
    }
    assert Apart(chains, bucket, 0, bucket, i);
    if le.previous != null {
      le.previous.next := le.next;
    }
    if le.next != null {
      le.next.previous := le.previous;
    }
    if a[bucket] == le {
      a[bucket] := le.next;
    }
    hide Without;
    chains' := Without(chains, bucket, i);
    forall b: nat ensures HeadOk(a, chains', b) {
      assert old(HeadOk(a, chains, b));
      if b < |chains| {
        WithoutIs(chains, bucket, i, b);
      }
    }
    forall b: nat, j: nat ensures LinkOk(chains', nodes, b, j) {
      if b < |chains| {
        WithoutIs(chains, bucket, i, b);
        var j' := Before(bucket, i, b, j);
        assert old(LinkOk(chains, nodes, b, j')) && Apart(chains, b, j', bucket, i);
        assert i > 0 ==> Apart(chains, b, j', bucket, i - 1);
        assert Apart(chains, b, j', bucket, i + 1);
      }
    }
    WithoutApart(chains, bucket, i);
  }

  /** Puts a node at the front of a chain. */
  method Attach(a: array<Link?>, le: Link, bucket: nat, ghost chains: seq<seq<Link>>, ghost nodes: set<Link>)
    returns (ghost chains': seq<seq<Link>>)
    requires Shaped(a, chains, nodes) && bucket < |chains| && le in nodes
    requires forall b, j :: 0 <= b < |chains| && 0 <= j < |chains[b]| ==> chains[b][j] != le
    modifies a, nodes
    ensures Shaped(a, chains', nodes) && chains' == chains[bucket := [le] + chains[bucket]]
    ensures forall n :: n in nodes ==> n.Val() == old(n.Val())
    ensures forall n :: n in nodes && n != le ==> n.next == old(n.next)
  {
    assert HeadOk(a, chains, bucket) && LinkOk(chains, nodes, bucket, 0);
    if a[bucket] != null {
      a[bucket].previous := le;
    }
    le.next := a[bucket];
    le.previous := null;
    a[bucket] := le;
    chains' := chains[bucket := [le] + chains[bucket]];
    forall b: nat ensures HeadOk(a, chains', b) {
      assert old(HeadOk(a, chains, b));
    }
    forall b: nat, j: nat ensures LinkOk(chains', nodes, b, j) {
      var j' := if b == bucket && j > 0 then j - 1 else j;
      assert old(LinkOk(chains, nodes, b, j'));
      assert Apart(chains, b, j', bucket, 0);
    }
    forall b: nat, j: nat, c: nat, k: nat ensures Apart(chains', b, j, c, k) {
      assert Apart(chains, b, if b == bucket && j > 0 then j - 1 else j, c, if c == bucket && k > 0 then k - 1 else k);
    }
  }

  /** Equal values in the same chains make the same table. */
  lemma ModelIs(chains: seq<seq<Link>>, nodes: set<Link>, t: Table)
    requires AllIn(chains, nodes) && |t| == |chains|
    requires forall b :: 0 <= b < |t| ==> |t[b]| == |chains[b]|
    requires forall b, i :: 0 <= b < |t| && 0 <= i < |t[b]| ==> t[b][i] == chains[b][i].Val()
    ensures Model(chains, nodes) == t
  {
    var m := Model(chains, nodes);
    forall b: nat | b < |t| ensures m[b] == t[b] {
      forall i: nat | i < |t[b]| ensures m[b][i] == t[b][i] {
      }
    }
  }

  /** The key of an entry that has one. */
  function TheKey(e: Entry): Key
    requires KeyOf(e).Some?
  {
    KeyOf(e).value
  }

  class Resolver {
    var buckets: array<Link?>
    var spare: Link?
    var numberEntries: nat
    var numberBuckets: nat
    var strategy: Strategy
    ghost var chains: seq<seq<Link>>
    ghost var nodes: set<Link>
    /** The map from device and inode that the table stands for. */
    ghost var contents: map<Key, Node>

    constructor (strategy: Strategy)
      ensures Ready() && View() == NoNodes(1024) && contents == map[] && this.strategy == strategy
      ensures fresh(buckets) && fresh(nodes)
    {
      var none := new Link?[1024](_ => null);
      buckets := none;
      spare := null;
      numberEntries := 0;
      numberBuckets := 1024;
      this.strategy := strategy;
      chains := seq(1024, _ => []);
      nodes := {};
      contents := map[];
      new;
      StartReady();
    }

    lemma StartReady()
      requires |chains| == buckets.Length == numberBuckets == 1024 && numberEntries == 0 && spare == null
      requires (forall b :: 0 <= b < |chains| ==> chains[b] == []) && forall b :: 0 <= b < buckets.Length ==> buckets[b] == null
      requires contents == map[]
      ensures Ready() && View() == NoNodes(1024)
    {
      hide Refines;
      hide Shaped;
      hide Size;
      hide Model;
      EmptyShape();
      StartRefines();
      NoneSize(1024, 0);
    }

    lemma EmptyShape()
      requires |chains| == buckets.Length && (forall b :: 0 <= b < |chains| ==> chains[b] == [])
      requires forall b :: 0 <= b < buckets.Length ==> buckets[b] == null
      ensures Shaped(buckets, chains, nodes) && AllIn(chains, nodes) && Model(chains, nodes) == NoNodes(|chains|)
    {
      forall b: nat ensures HeadOk(buckets, chains, b) {
      }
      forall b: nat, i: nat ensures LinkOk(chains, nodes, b, i) {
      }
      forall b: nat, i: nat, c: nat, j: nat ensures Apart(chains, b, i, c, j) {
      }
      ModelIs(chains, nodes, NoNodes(|chains|));
    }

    ghost predicate Shape()
      reads this, buckets, nodes
    {
      Shaped(buckets, chains, nodes) && numberBuckets == buckets.Length
    }

    ghost function View(): (t: Table)
      requires Shape()
      reads this, buckets, nodes
    {
      ShapedIn(buckets, chains, nodes);
      Model(chains, nodes)
    }

    ghost predicate Valid()
      reads this, buckets, nodes
    {
      Shape() && numberEntries == Size(View(), 0) && Refines(View(), contents) && (spare != null ==> spare in nodes)
    }

    lemma Lengths()
      requires Shape()
      ensures |chains| == buckets.Length == numberBuckets == |View()|
    {
    }

    lemma HeadIs(b: nat)
      requires Shape() && b < |chains|
      ensures b < buckets.Length && buckets[b] == if chains[b] == [] then null else chains[b][0]
    {
      assert HeadOk(buckets, chains, b);
    }

    lemma LinkIs(b: nat, i: nat)
      requires Shape() && b < |chains| && i < |chains[b]|
      ensures chains[b][i] in nodes && View()[b][i] == chains[b][i].Val()
      ensures chains[b][i].next == if i + 1 < |chains[b]| then chains[b][i + 1] else null
    {
      assert LinkOk(chains, nodes, b, i);
    }

    lemma OnlyAt(b: nat, i: nat)
      requires Shape() && b < |chains| && i < |chains[b]|
      ensures forall c, j :: 0 <= c < |chains| && 0 <= j < |chains[c]| && chains[c][j] == chains[b][i] ==> c == b && j == i
    {
      forall c: nat, j: nat | c < |chains| && j < |chains[c]| && chains[c][j] == chains[b][i] ensures c == b && j == i {
        assert Apart(chains, c, j, b, i);
      }
    }

    /** A node in the table gets new values that leave its key and its place alone. */
    method Set(le: Link, entry: Option<Entry>, links: Word, ghost b: nat, ghost i: nat)
      requires Valid() && b < |chains| && i < |chains[b]| && le == chains[b][i] && le in nodes && links > 0
      modifies this, nodes
      ensures Valid() && Kept() && chains == old(chains) && numberEntries == old(numberEntries)
      ensures View() == Change(old(View()), b, i, old(View())[b][i].(entry := entry, links := links))
      ensures le.Val() == old(le.Val()).(entry := entry, links := links)
    {
      hide Refines;
      hide Size;
      ghost var t: Table := View();
      LinkIs(b, i);
      OnlyAt(b, i);
      ghost var n := t[b][i].(entry := entry, links := links);
      le.entry := entry;
      le.links := links;
      forall c: nat, j: nat ensures LinkOk(chains, nodes, c, j) {
        assert old(LinkOk(chains, nodes, c, j));
      }
      forall c: nat ensures HeadOk(buckets, chains, c) {
        assert old(HeadOk(buckets, chains, c));
      }
      ShapedIn(buckets, chains, nodes);
      ModelIs(chains, nodes, Change(t, b, i, n));
      ChangeRefines(t, contents, b, i, n);
      contents := contents[TheKey(n.canonical) := n];
      ChangeSize(t, b, i, n, 0);
    }

    twostate predicate Kept()
      reads this
    {
      strategy == old(strategy) && buckets == old(buckets) && nodes == old(nodes) && numberBuckets == old(numberBuckets)
    }

    /** A node leaves the table, to be freed with the next call. */
    method Leave(le: Link, bucket: nat, ghost i: nat)
      requires Valid() && bucket < |chains| && i < |chains[bucket]| && le == chains[bucket][i]
      modifies this, buckets, nodes
      ensures Valid() && Kept() && View() == Remove(old(View()), bucket, i) && spare == le && le in nodes
      ensures le.Val() == old(le.Val()) && numberEntries == old(numberEntries) - 1
      ensures forall b, j :: 0 <= b < |chains| && 0 <= j < |chains[b]| ==> chains[b][j] != le
    {
      hide Model;
      hide PowerOfTwo;
      hide Refines;
      hide Size;
      ghost var t: Table := View();
      LinkIs(bucket, i);
      RemoveRefines(t, contents, bucket, i);
      RemoveSize(t, bucket, i, 0);
      chains := Detach(buckets, le, bucket, chains, nodes, i);
      numberEntries := numberEntries - 1;
      spare := le;
      contents := contents - {TheKey(t[bucket][i].canonical)};
      ShapedIn(buckets, chains, nodes);
      ModelIs(chains, nodes, Remove(t, bucket, i));
    }

    /** Between two calls: every node fits the strategy. */
    ghost predicate Ready()
      reads this, buckets, nodes
    {
      Valid() && Good(View(), contents, strategy)
    }

    /** Finds the node of an entry's key, and counts one link down; a node that waits for none leaves the table. */
    method FindEntry(e: Entry) returns (le: Link?, ghost p: Option<Place>)
      requires Valid()
      modifies this, buckets, nodes
      ensures Valid() && Kept() && PowerOfTwo(|old(View())|) && p == Locate(old(View()), e)
      ensures p.None? ==> le == null && View() == old(View()) && chains == old(chains) && contents == old(contents)
      ensures p.Some? ==> Found(old(View()), p.value, le)
    {
      hide Model;
      hide PowerOfTwo;
      hide Refines;
      hide Shaped;
      hide Hash;
      hide And;
      hide Size;
      RefinesWell(View(), contents);
      ghost var t: Table := View();
      p := Locate(t, e);
      le := null;
      LocateIs(t, e);
      if KeyOf(e).None? {
        return;
      }
      spare := null;
      var key := TheKey(e);
      var hash := Hash(key);
      Lengths();
      SlotInRange(key, numberBuckets);
      var bucket := And(hash, numberBuckets - 1);
      ghost var i := 0;
      HeadIs(bucket);
      le := buckets[bucket];
      while le != null
        invariant Valid() && Kept() && View() == t && bucket == Slot(key, numberBuckets) < |chains| && i <= |chains[bucket]|
        invariant le == if i < |chains[bucket]| then chains[bucket][i] else null
        invariant forall j :: 0 <= j < i ==> !Matches(t[bucket][j], key)
        invariant chains == old(chains) && contents == old(contents)
        decreases |chains[bucket]| - i
      {
        LinkIs(bucket, i);
        if le.hash == hash && le.canonical.dev == Some(key.dev) && le.canonical.ino == Some(key.ino) {
          assert FindIn(t[bucket], key) == i;
          CountLink(le, bucket, i);
          return;
        }
        le := le.next;
        i := i + 1;
      }
    }

    /** What finding a node at `p` leaves behind. */
    ghost predicate Found(t: Table, p: Place, le: Link?)
      requires Valid() && p.bucket < |t| && p.index < |t[p.bucket]|
      reads this, buckets, nodes
    {
      var n := t[p.bucket][p.index];
      && le != null && le in nodes && n.links > 0 && le.Val() == n.(links := n.links - 1)
      && View() == CountDown(t, p, n.entry)
      && if n.links == 1 then
           spare == le && forall b, j :: 0 <= b < |chains| && 0 <= j < |chains[b]| ==> chains[b][j] != le
         else p.bucket < |chains| && p.index < |chains[p.bucket]| && chains[p.bucket][p.index] == le
    }

    method CountLink(le: Link, bucket: nat, ghost i: nat)
      requires Valid() && bucket < |chains| && i < |chains[bucket]| && le == chains[bucket][i] && le in nodes
      modifies this, buckets, nodes
      ensures Valid() && Kept() && Found(old(View()), Place(bucket, i), le)
    {
      hide Refines;
      hide Shaped;
      hide Size;
      ghost var t: Table := View();
      RefinesWell(t, contents);
      assert NodeOk(t, bucket, i);
      LinkIs(bucket, i);
      if le.links > 1 {
        Set(le, le.entry, le.links - 1, bucket, i);
      } else {
        Leave(le, bucket, i);
        SetLoose(le, le.entry, le.links - 1);
      }
    }

    /** A node outside the table gets new values. */
    method SetLoose(le: Link, entry: Option<Entry>, links: Word)
      requires Valid() && le in nodes
      requires forall b, j :: 0 <= b < |chains| && 0 <= j < |chains[b]| ==> chains[b][j] != le
      modifies nodes
      ensures Valid() && Kept() && chains == old(chains) && View() == old(View()) && contents == old(contents)
      ensures spare == old(spare) && le.Val() == old(le.Val()).(entry := entry, links := links)
    {
      hide Refines;
      hide Size;
      ghost var t: Table := View();
      le.entry := entry;
      le.links := links;
      forall c: nat, j: nat ensures LinkOk(chains, nodes, c, j) {
        assert old(LinkOk(chains, nodes, c, j));
      }
      forall c: nat ensures HeadOk(buckets, chains, c) {
        assert old(HeadOk(buckets, chains, c));
      }
      ShapedIn(buckets, chains, nodes);
      ModelIs(chains, nodes, t);
    }

    /** Finds the first node of the mode wanted, bucket by bucket, and takes it out. */
    method NextEntry(mode: nat) returns (le: Link?, ghost p: Option<Place>)
      requires Valid()
      modifies this, buckets, nodes
      ensures Valid() && Kept() && p == NextAt(old(View()), 0, mode)
      ensures p.None? ==> le == null && View() == old(View())
      ensures p.Some? ==> le != null && le in nodes && le.Val() == old(View())[p.value.bucket][p.value.index]
      ensures p.Some? ==> View() == Remove(old(View()), p.value.bucket, p.value.index)
      ensures p.Some? ==> forall b, j :: 0 <= b < |chains| && 0 <= j < |chains[b]| ==> chains[b][j] != le
    {
      hide Refines;
      hide Shaped;
      hide Size;
      hide NextAt;
      hide FirstIn;
      hide Model;
      ghost var t: Table := View();
      spare := null;
      Lengths();
      p := NextAt(t, 0, mode);
      var bucket := 0;
      while bucket < numberBuckets
        invariant Valid() && Kept() && View() == t && bucket <= numberBuckets == |t| == |chains|
        invariant NextAt(t, 0, mode) == NextAt(t, bucket, mode)
      {
        HeadIs(bucket);
        le := buckets[bucket];
        ghost var i := 0;
        while le != null
          invariant Valid() && Kept() && View() == t && bucket < numberBuckets == |t| == |chains|
          invariant i <= |chains[bucket]| && le == if i < |chains[bucket]| then chains[bucket][i] else null
          invariant forall j :: 0 <= j < i ==> !Wanted(t[bucket][j], mode)
          decreases |chains[bucket]| - i
        {
          LinkIs(bucket, i);
          if !(le.entry.Some? && mode % 2 == 0) && !(le.entry.None? && mode / 2 % 2 == 0) {
            NextHere(t, bucket, i, mode);
            Leave(le, bucket, i);
            return;
          }
          le := le.next;
          i := i + 1;
        }
        NextSkip(t, bucket, mode);
        bucket := bucket + 1;
      }
      NextNone(t, mode);
      le := null;
    }

    // ---------- inserting ----------

    /** While growing: the nodes not moved yet, from node `j` of chain `i` on. */
    ghost predicate RestOk(placed: seq<seq<Link>>, i: nat, j: nat, b: nat, k: nat)
      reads this, nodes
    {
      b < |chains| && k < |chains[b]| && (b > i || (b == i && k >= j)) ==>
        && chains[b][k] in nodes
        && chains[b][k].next == (if k + 1 < |chains[b]| then chains[b][k + 1] else null)
        && forall c, d :: 0 <= c < |placed| && 0 <= d < |placed[c]| ==> placed[c][d] != chains[b][k]
    }

    ghost predicate RestHead(i: nat, j: nat, b: nat)
      reads this, buckets
    {
      b < |chains| && b < buckets.Length ==>
        && (b > i ==> buckets[b] == if chains[b] == [] then null else chains[b][0])
        && (b == i ==> buckets[b] == if j < |chains[b]| then chains[b][j] else null)
    }

    ghost predicate Growing(a: array<Link?>, placed: seq<seq<Link>>, i: nat, j: nat)
      reads this, buckets, nodes, a
    {
      && a != buckets && Shaped(a, placed, nodes) && numberBuckets == buckets.Length == |chains|
      && (forall b, k, c, l :: Apart(chains, b, k, c, l))
      && (forall b, k :: RestOk(placed, i, j, b, k)) && (forall b :: RestHead(i, j, b))
    }

    /** Moves the first node of a bucket to its new bucket. */
    method MoveHead(a: array<Link?>, i: nat, ghost placed: seq<seq<Link>>, ghost j: nat)
      returns (ghost placed': seq<seq<Link>>)
      requires Growing(a, placed, i, j) && i < |chains| && buckets[i] != null && PowerOfTwo(a.Length)
      modifies buckets, a, nodes
      ensures j < |chains[i]| && Growing(a, placed', i, j + 1) && |placed'| == |placed|
      ensures (forall n :: n in nodes ==> n.Val() == old(n.Val())) && AllIn(placed, nodes) && AllIn(placed', nodes)
      ensures chains[i][j] in nodes && And(chains[i][j].hash, a.Length - 1) < |placed|
      ensures Model(placed', nodes) ==
              Prepend(old(Model(placed, nodes)), And(chains[i][j].hash, a.Length - 1), chains[i][j].Val())
    {
      hide Model;
      hide And;
      ShapedIn(a, placed, nodes);
      assert RestHead(i, j, i) && RestOk(placed, i, j, i, j);
      ghost var m: Table := Model(placed, nodes);
      var le := buckets[i];
      buckets[i] := le.next;
      MaskIsMod(le.hash, a.Length);
      var bucket := And(le.hash, a.Length - 1);
      assert Shaped(a, placed, nodes);
      placed' := Attach(a, le, bucket, placed, nodes);
      ghost var j': nat := j + 1;
      forall b: nat, k: nat ensures RestOk(placed', i, j', b, k) {
        assert old(RestOk(placed, i, j, b, k)) && Apart(chains, b, k, i, j);
      }
      forall b: nat ensures RestHead(i, j', b) {
        assert old(RestHead(i, j, b));
      }
      ShapedIn(a, placed', nodes);
      ModelIs(placed', nodes, Prepend(m, bucket, le.Val()));
    }

    /** Doubles the number of buckets, unless that number cannot be represented. */
    method GrowHash()
      requires Valid()
      modifies this, buckets, nodes
      ensures Valid() && strategy == old(strategy) && nodes == old(nodes) && contents == old(contents)
      ensures buckets == old(buckets) || fresh(buckets)
      ensures PowerOfTwo(|old(View())|)
      ensures View() == if 2 * |old(View())| <= SIZE_MAX then Grow(old(View())) else old(View())
    {
      hide PowerOfTwo;
      hide Refines;
      hide And;
      hide Size;
      hide Shaped;
      hide Growing;
      hide Model;
      hide Spells;
      ghost var t: Table := View();
      Lengths();
      ShapedIn(buckets, chains, nodes);
      RefinesWell(t, contents);
      if 2 * numberBuckets > SIZE_MAX {
        return;
      }
      var newSize := 2 * numberBuckets;
      assert newSize / 2 == numberBuckets;
      var newBuckets := new Link?[newSize](_ => null);
      ghost var placed: seq<seq<Link>> := seq(newSize, _ => []);
      var i := 0;
      StartGrowing(newBuckets, placed, t);
      while i < numberBuckets
        modifies buckets, newBuckets, nodes
        invariant i <= numberBuckets == |t| && Growing(newBuckets, placed, i, 0) && |placed| == newSize
        invariant AllIn(placed, nodes) && Rehash(t, i, Model(placed, nodes)) == Grow(t) && Spells(t)
      {
        placed := MoveBucket(newBuckets, i, placed, t);
        i := i + 1;
      }
      GrownShape(newBuckets, placed, i);
      buckets := newBuckets;
      numberBuckets := newSize;
      chains := placed;
      GrowRefines(t, contents);
      GrowSize(t);
    }

    lemma StartGrowing(a: array<Link?>, placed: seq<seq<Link>>, t: Table)
      requires Shape() && t == View() && a != buckets && a.Length == |placed| == 2 * |t| && PowerOfTwo(|t|)
      requires (forall b :: 0 <= b < |placed| ==> placed[b] == []) && forall b :: 0 <= b < a.Length ==> a[b] == null
      ensures Growing(a, placed, 0, 0) && AllIn(placed, nodes) && PowerOfTwo(|placed|) && Spells(t)
      ensures Rehash(t, 0, Model(placed, nodes)) == Grow(t)
    {
      assert 2 * |t| / 2 == |t|;
      forall b: nat ensures HeadOk(a, placed, b) {
      }
      forall b: nat, k: nat ensures LinkOk(placed, nodes, b, k) {
      }
      forall b: nat, k: nat, c: nat, l: nat ensures Apart(placed, b, k, c, l) {
      }
      forall b: nat, k: nat ensures RestOk(placed, 0, 0, b, k) {
        assert LinkOk(chains, nodes, b, k);
      }
      forall b: nat ensures RestHead(0, 0, b) {
        assert HeadOk(buckets, chains, b);
      }
      ModelIs(placed, nodes, NoNodes(2 * |t|));
      ShapedIn(buckets, chains, nodes);
    }

    /** The chains still have the values of `t`. */
    ghost predicate Spells(t: Table)
      reads this, nodes
    {
      && AllIn(chains, nodes) && |t| == |chains| && (forall b :: 0 <= b < |t| ==> |t[b]| == |chains[b]|)
      && forall b, i :: 0 <= b < |t| && 0 <= i < |t[b]| ==> t[b][i] == chains[b][i].Val()
    }

    /** Moves all nodes of a bucket, the first one first. */
    method MoveBucket(a: array<Link?>, i: nat, ghost placed: seq<seq<Link>>, ghost t: Table)
      returns (ghost placed': seq<seq<Link>>)
      requires Growing(a, placed, i, 0) && i < |chains| == |t| && PowerOfTwo(a.Length) && AllIn(placed, nodes)
      requires Spells(t)
      modifies buckets, a, nodes
      ensures Spells(t) && Growing(a, placed', i + 1, 0) && |placed'| == |placed| && AllIn(placed', nodes)
      ensures Rehash(t, i + 1, Model(placed', nodes)) == Rehash(t, i, old(Model(placed, nodes)))
    {
      hide Model;
      hide PowerOfTwo;
      hide Growing;
      hide And;
      GrowingSizes(a, placed, i, 0);
      placed' := placed;
      ghost var j := 0;
      while buckets[i] != null
        invariant j <= |chains[i]| && Growing(a, placed', i, j) && |placed'| == |placed| && AllIn(placed', nodes)
        invariant PlaceAll(Model(placed', nodes), t[i][j..]) == PlaceAll(old(Model(placed, nodes)), t[i])
        invariant Spells(t)
        decreases |chains[i]| - j
      {
        placed' := MoveHead(a, i, placed', j);
        GrowingSizes(a, placed', i, j + 1);
        assert t[i][j..][1..] == t[i][j + 1..];
        j := j + 1;
      }
      NextBucket(a, placed', i, j);
      assert t[i][j..] == [];
    }

    lemma GrowingSizes(a: array<Link?>, placed: seq<seq<Link>>, i: nat, j: nat)
      requires Growing(a, placed, i, j)
      ensures a.Length == |placed| && buckets.Length == |chains| && a != buckets
    {
    }

    lemma NextBucket(a: array<Link?>, placed: seq<seq<Link>>, i: nat, j: nat)
      requires Growing(a, placed, i, j) && i < |chains| && j <= |chains[i]| && buckets[i] == null
      ensures j == |chains[i]| && Growing(a, placed, i + 1, 0)
    {
      assert RestHead(i, j, i);
      ghost var i': nat := i + 1;
      forall b: nat, k: nat ensures RestOk(placed, i', 0, b, k) {
        assert RestOk(placed, i, j, b, k);
      }
      forall b: nat ensures RestHead(i', 0, b) {
        assert RestHead(i, j, b);
      }
    }

    lemma GrownShape(a: array<Link?>, placed: seq<seq<Link>>, i: nat)
      requires Growing(a, placed, i, 0)
      ensures Shaped(a, placed, nodes)
    {
    }

    /** Adds a node for an entry whose key is not in the table. */
    method InsertEntry(e: Entry) returns (le: Link?)
      requires Valid() && e.nlink != 1 && (KeyOf(e).Some? ==> TheKey(e) !in contents)
      modifies this, buckets, nodes
      ensures Valid() && strategy == old(strategy) && Fresh()
      ensures KeyOf(e).None? ==> le == null && View() == old(View())
      ensures KeyOf(e).Some? ==> le != null && PowerOfTwo(|old(View())|) && View() == Insert(old(View()), e, None)
      ensures KeyOf(e).Some? ==>
                var b := Slot(TheKey(e), |View()|);
                b < |chains| && chains[b] != [] && chains[b][0] == le && le in nodes && le.Val() == NewNode(e, None)
    {
      hide Model;
      hide PowerOfTwo;
      hide Refines;
      hide Hash;
      hide And;
      hide Size;
      hide Shaped;
      hide Grow;
      le := null;
      if KeyOf(e).None? {
        return;
      }
      ghost var t: Table := View();
      RefinesWell(t, contents);
      Lengths();
      le := new Link(e, Hash(TheKey(e)), if e.nlink == 0 then 0xFFFF_FFFF else e.nlink - 1);
      SameView(t);
      if numberEntries / 2 > numberBuckets {
        GrowHash();
      }
      assert View() == Enlarged(t);
      AddNode(le, e);
    }

    /** A new object leaves the table alone. */
    twostate lemma SameView(t: Table)
      requires old(Valid()) && t == old(View()) && unchanged(this)
      requires unchanged(old(buckets)) && unchanged(old(nodes))
      ensures Valid() && View() == t
    {
    }

    method AddNode(le: Link, e: Entry)
      requires Valid() && le !in nodes && KeyOf(e).Some? && TheKey(e) !in contents && e.nlink != 1
      requires le.Val() == NewNode(e, None)
      modifies this, buckets, nodes, le
      ensures Valid() && strategy == old(strategy) && buckets == old(buckets) && nodes == old(nodes) + {le}
      ensures Slot(TheKey(e), |View()|) < |old(View())| == |View()| == |chains|
      ensures View() == Prepend(old(View()), Slot(TheKey(e), |View()|), NewNode(e, None))
      ensures chains[Slot(TheKey(e), |View()|)] != [] && chains[Slot(TheKey(e), |View()|)][0] == le
      ensures le.Val() == NewNode(e, None)
    {
      hide Refines;
      hide Hash;
      hide And;
      hide Size;
      hide Model;
      hide PowerOfTwo;
      ghost var t: Table := View();
      ghost var n := NewNode(e, None);
      RefinesWell(t, contents);
      Lengths();
      SlotInRange(TheKey(e), numberBuckets);
      var bucket := And(le.hash, numberBuckets - 1);
      PrependRefines(t, contents, n);
      PrependSize(t, bucket, n, 0);
      MoreNodes(le);
      chains := Attach(buckets, le, bucket, chains, nodes);
      numberEntries := numberEntries + 1;
      contents := contents[TheKey(e) := n];
      ShapedIn(buckets, chains, nodes);
      ModelIs(chains, nodes, Prepend(t, bucket, n));
    }

    /** Bookkeeping only: one more node object. */
    ghost method MoreNodes(le: Link)
      requires Shape()
      modifies `nodes
      ensures Shape() && nodes == old(nodes) + {le} && View() == old(View())
      ensures AllIn(chains, old(nodes))
    {
      ghost var t: Table := View();
      ShapedIn(buckets, chains, nodes);
      nodes := nodes + {le};
      forall b: nat, j: nat ensures LinkOk(chains, nodes, b, j) {
        assert old(LinkOk(chains, nodes, b, j));
      }
      ModelIs(chains, nodes, t);
    }

    // ---------- the calls ----------

    /** Passes one entry on, holds it back, or returns one held back before. */
    method LinkifyEntry(e: Option<Entry>) returns (e': Option<Entry>, f: Option<Entry>)
      requires Ready()
      modifies this, buckets, nodes
      ensures Ready() && strategy == old(strategy) && Fresh() && Fitting(old(View()), strategy)
      ensures Outcome(View(), e', f) == Linkify(old(View()), strategy, e)
      ensures e.Some? ==> contents == After(old(contents), strategy, e.value)
    {
      hide Match;
      hide Fitting;
      hide MapFits;
      hide HeldKeys;
      hide Model;
      hide Refines;
      hide Turn;
      hide Size;
      hide Shaped;
      FitsMap(View(), contents, strategy);
      f := None;
      if e.None? {
        e' := DrainOne();
        return;
      }
      e' := e;
      LinkifyGood(View(), contents, strategy, e.value);
      if e.value.nlink == 1 {
        return;
      }
      if e.value.filetype == Directory || e.value.filetype == BlockDevice || e.value.filetype == CharDevice {
        return;
      }
      ghost var m := contents;
      match strategy {
        case LikeTar => e' := MatchTar(e.value);
        case LikeMtree => e' := MatchTar(e.value);
        case LikeOldCpio =>
        case LikeNewCpio => e', f := MatchCpio(e.value);
      }
      contents := After(m, strategy, e.value);
    }

    /** Without an entry: one that is held back is returned. */
    method DrainOne() returns (e: Option<Entry>)
      requires Ready()
      modifies this, buckets, nodes
      ensures Ready() && strategy == old(strategy) && Fresh() && Fitting(old(View()), strategy)
      ensures Outcome(View(), e, None) == Linkify(old(View()), strategy, None)
    {
      hide Fitting;
      hide Model;
      hide NextAt;
      hide Refines;
      hide Size;
      hide Shaped;
      FitsMap(View(), contents, strategy);
      DrainRefines(View(), contents, strategy);
      ghost var m := contents;
      ghost var o := Linkify(View(), strategy, None);
      e := None;
      var le, p := NextEntry(DEFERRED);
      if le != null {
        e := le.entry;
        SetLoose(le, None, le.links);
        ghost var k: Key :| k in m && m[k].entry == o.e && Refines(o.table, m - {k});
        contents := m - {k};
      } else {
        contents := m;
      }
    }

    /** Tar and mtree: a name seen before becomes a hardlink to the first one. */
    method MatchTar(e: Entry) returns (e': Option<Entry>)
      requires Ready() && (strategy == LikeTar || strategy == LikeMtree) && !Untracked(e)
      modifies this, buckets, nodes
      ensures Valid() && strategy == old(strategy) && Fresh() && Fitting(old(View()), strategy)
      ensures Outcome(View(), e', None) == Match(old(View()), strategy, e)
    {
      hide Refines;
      hide Size;
      hide Shaped;
      hide Hash;
      hide And;
      ghost var t: Table := View();
      FitsMap(t, contents, strategy);
      NotFound(t, contents, e);
      e' := Some(e);
      var le, p := FindEntry(e);
      if le != null {
        assert Held(t, strategy, p.value.bucket, p.value.index);
        e' := Some(AsTarLink(strategy, e, le.canonical.pathname));
      } else {
        var inserted := InsertEntry(e);
      }
    }

    /** New cpio: a name is held back until the next one of the same file comes, or the last one. */
    method MatchCpio(e: Entry) returns (e': Option<Entry>, f: Option<Entry>)
      requires Ready() && strategy == LikeNewCpio && !Untracked(e)
      modifies this, buckets, nodes
      ensures Valid() && strategy == old(strategy) && Fresh() && Fitting(old(View()), strategy)
      ensures Outcome(View(), e', f) == Match(old(View()), strategy, e)
    {
      hide Refines;
      hide Size;
      hide Shaped;
      hide Hash;
      hide And;
      ghost var t: Table := View();
      FitsMap(t, contents, strategy);
      NotFound(t, contents, e);
      hide Insert;
      e', f := Some(e), None;
      var le, p := FindEntry(e);
      if le != null {
        assert Held(t, strategy, p.value.bucket, p.value.index);
        e' := Some(AsLink(le.entry.value, le.canonical.pathname));
        if le.links == 0 {
          f := Some(e);
          SetLoose(le, None, le.links);
        } else {
          ChangeTwice(t, p.value, e);
          Set(le, Some(e), le.links, p.value.bucket, p.value.index);
        }
      } else {
        e' := Tuck(e);
      }
    }

    /** An entry not seen before is tucked away, unless it cannot be identified. */
    method Tuck(e: Entry) returns (e': Option<Entry>)
      requires Valid() && !Untracked(e) && (KeyOf(e).Some? ==> TheKey(e) !in contents)
      modifies this, buckets, nodes
      ensures Valid() && strategy == old(strategy) && Fresh()
      ensures KeyOf(e).None? ==> e' == Some(e) && View() == old(View())
      ensures KeyOf(e).Some? ==> e' == None && PowerOfTwo(|old(View())|) && View() == Insert(old(View()), e, Some(e))
    {
      hide Refines;
      hide Size;
      hide Shaped;
      hide Hash;
      hide And;
      hide Insert;
      ghost var t: Table := View();
      RefinesWell(t, contents);
      var le := InsertEntry(e);
      if le == null {
        return Some(e);
      }
      InsertHeld(t, e);
      Set(le, Some(e), le.links, Slot(TheKey(e), |View()|), 0);
      e' := None;
    }

    /** A client passes in all its entries. */
    method PassAll(inputs: seq<Entry>) returns (out: seq<Entry>)
      requires Ready()
      modifies this, buckets, nodes
      ensures Ready() && strategy == old(strategy) && Fresh() && Reachable(old(View()), strategy)
      ensures (View(), out) == Run(old(View()), strategy, inputs)
    {
      hide Fitting;
      hide Model;
      hide Refines;
      hide Size;
      hide Shaped;
      hide Linkify;
      hide Run;
      hide Reachable;
      hide Good;
      ghost var t: Table := View();
      IsReachable();
      out := [];
      var i := 0;
      assert inputs[0..] == inputs;
      while i < |inputs|
        invariant i <= |inputs| && Ready() && strategy == old(strategy) && Fresh() && Reachable(View(), strategy)
        invariant Run(t, strategy, inputs).1 == out + Run(View(), strategy, inputs[i..]).1
        invariant Run(t, strategy, inputs).0 == Run(View(), strategy, inputs[i..]).0
      {
        RunFrom(View(), strategy, inputs, i);
        var e, f := LinkifyEntry(Some(inputs[i]));
        out := out + ((if e.Some? then [e.value] else []) + if f.Some? then [f.value] else []);
        i := i + 1;
      }
      assert inputs[i..] == [] && out + [] == out;
      NoRun(View(), strategy);
    }

    /** A client drains the resolver. */
    method DrainAll() returns (out: seq<Entry>)
      requires Ready()
      modifies this, buckets, nodes
      ensures Ready() && strategy == old(strategy) && Fresh() && Reachable(old(View()), strategy)
      ensures out == Drain(old(View()), strategy)
    {
      hide Refines;
      hide Size;
      hide Shaped;
      hide Linkify;
      hide Good;
      ghost var t: Table := View();
      IsReachable();
      out := [];
      var more := true;
      while more
        invariant Ready() && strategy == old(strategy) && Fresh() && Reachable(View(), strategy)
        invariant Drain(t, strategy) == out + if more then Drain(View(), strategy) else []
        decreases Size(View(), 0), more
      {
        DrainReachable(View(), strategy);
        var e, f := LinkifyEntry(None);
        if e.Some? {
          out := out + [e.value];
        }
        more := e.Some?;
      }
    }

    /** A client's run: every entry is passed in, then the resolver is drained. */
    method Process(inputs: seq<Entry>) returns (out: seq<Entry>)
      requires Ready()
      modifies this, buckets, nodes
      ensures Ready() && strategy == old(strategy) && Fresh() && Reachable(old(View()), strategy)
      ensures out == Whole(old(View()), strategy, inputs)
    {
      hide Refines;
      hide Shaped;
      hide Good;
      hide Drain;
      hide Run;
      var passed := PassAll(inputs);
      IsReachable();
      var drained := DrainAll();
      out := passed + drained;
    }

    lemma IsReachable()
      requires Ready()
      ensures Reachable(View(), strategy)
    {
    }

    /** The frame of operations that may allocate. */
    twostate predicate Fresh()
      reads this
    {
      (buckets == old(buckets) || fresh(buckets)) && old(nodes) <= nodes && fresh(nodes - old(nodes))
    }
  }

  lemma ChangeTwice(t: Table, p: Place, e: Entry)
    requires p.bucket < |t| && p.index < |t[p.bucket]| && t[p.bucket][p.index].links > 1
    ensures var n := t[p.bucket][p.index];
            var r := CountDown(t, p, n.entry);
            Change(r, p.bucket, p.index, r[p.bucket][p.index].(entry := Some(e))) == CountDown(t, p, Some(e))
  {
    var n := t[p.bucket][p.index];
    var r := CountDown(t, p, n.entry);
    assert r[p.bucket][p.index := n.(links := n.links - 1, entry := Some(e))] ==
           t[p.bucket][p.index := n.(links := n.links - 1, entry := Some(e))];
  }

  lemma InsertHeld(t: Table, e: Entry)
    requires PowerOfTwo(|t|) && KeyOf(e).Some?
    ensures var r := Insert(t, e, None);
            var b := Slot(TheKey(e), |r|);
            && b < |r| && r[b] != []
            && Change(r, b, 0, r[b][0].(entry := Some(e))) == Insert(t, e, Some(e))
  {
    hide And;
    hide Hash;
    hide Enlarged;
    var g := Enlarged(t);
    MaskIsMod(Hash(TheKey(e)), |g|);
    var b := Slot(TheKey(e), |g|);
    assert ([NewNode(e, None)] + g[b])[0 := NewNode(e, Some(e))] == [NewNode(e, Some(e))] + g[b];
  }

  lemma NotFound(t: Table, m: map<Key, Node>, e: Entry)
    requires Refines(t, m)
    ensures PowerOfTwo(|t|) && (KeyOf(e).Some? ==> (Locate(t, e).None? <==> TheKey(e) !in m))
  {
    hide Hash;
    hide And;
    if KeyOf(e).Some? {
      LookupIs(t, m, TheKey(e));
    }
  }

  lemma LocateIs(t: Table, e: Entry)
    requires PowerOfTwo(|t|)
    ensures KeyOf(e).None? ==> Locate(t, e).None?
    ensures KeyOf(e).Some? ==>
              var b := Slot(TheKey(e), |t|);
              b < |t| && var i := FindIn(t[b], TheKey(e));
              Locate(t, e) == if i < |t[b]| then Some(Place(b, i)) else None
  {
    if KeyOf(e).Some? {
      SlotInRange(TheKey(e), |t|);
    }
  }

  lemma NextHere(t: Table, b: nat, i: nat, mode: nat)
    requires b < |t| && i < |t[b]| && Wanted(t[b][i], mode) && forall j :: 0 <= j < i ==> !Wanted(t[b][j], mode)
    ensures NextAt(t, b, mode) == Some(Place(b, i))
  {
    assert FirstIn(t[b], mode) == i;
  }

  lemma NextSkip(t: Table, b: nat, mode: nat)
    requires b < |t| && forall j :: 0 <= j < |t[b]| ==> !Wanted(t[b][j], mode)
    ensures NextAt(t, b, mode) == NextAt(t, b + 1, mode)
  {
  }

  lemma NextNone(t: Table, mode: nat)
    ensures NextAt(t, |t|, mode) == None
  {
  }
}
