/**
  The bookkeeping both PPMd sub-allocators must respect: blocks tile their area; each block is in use, or on the free
  list of its size class, or loose while the allocator holds it.
 */
module FreeSpace {
  import opened Tiling
  import opened SizeClasses

  /**
    `link` is the word of every unit that a free list runs through, `freeList` the heads (0 is the null reference);
    `lists` says which blocks each list holds, in order.
   */
  datatype Space = Space(
    link: seq<nat>, freeList: seq<nat>, tiles: Tiles, lists: seq<seq<nat>>, live: set<nat>, loose: set<nat>)

  /** The list that starts at `head` is exactly `l`. */
  ghost predicate Linked(link: seq<nat>, head: nat, l: seq<nat>)
    decreases |l|
  {
    if l == [] then head == 0 else head == l[0] && 0 < head < |link| && Linked(link, link[head], l[1..])
  }

  ghost predicate ListOk(s: Space, i: nat) {
    i < NUM_INDEXES ==>
      i < |s.freeList| && i < |s.lists| && Linked(s.link, s.freeList[i], s.lists[i]) && NoDup(s.lists[i])
  }

  ghost predicate NoDup(l: seq<nat>) {
    forall j, k :: 0 <= j < k < |l| ==> l[j] != l[k]
  }

  /** A block on list `i` has the size of that class and is neither in use nor loose. */
  ghost predicate NodeOk(s: Space, i: nat, a: nat) {
    i < |s.lists| && a in s.lists[i] ==>
      a in s.tiles.size && s.tiles.size[a] == I2U(i) && a !in s.live && a !in s.loose
  }

  /** Every block is somewhere. */
  ghost predicate HomeOk(s: Space, b: nat) {
    b in s.tiles.size ==>
      && 0 < b < |s.link|
      && (b in s.live || b in s.loose || exists i :: OnList(s, i, b))
  }

  ghost predicate OnList(s: Space, i: nat, b: nat) {
    i < |s.lists| && b in s.lists[i]
  }

  ghost predicate Sound(s: Space) {
    && |s.freeList| == NUM_INDEXES && |s.lists| == NUM_INDEXES
    && Tiled(s.tiles)
    && s.live <= s.tiles.size.Keys && s.loose <= s.tiles.size.Keys && s.live !! s.loose
    && (forall i :: ListOk(s, i))
    && (forall i, a :: NodeOk(s, i, a))
    && (forall b :: HomeOk(s, b))
  }

  lemma ListAt(s: Space, i: nat)
    requires Sound(s) && i < NUM_INDEXES
    ensures |s.freeList| == NUM_INDEXES && |s.lists| == NUM_INDEXES
    ensures Linked(s.link, s.freeList[i], s.lists[i]) && NoDup(s.lists[i])
    ensures s.freeList[i] == 0 <==> s.lists[i] == []
    ensures s.lists[i] != [] ==> s.freeList[i] == s.lists[i][0] && 0 < s.freeList[i] < |s.link|
  {
    assert ListOk(s, i);
  }

  lemma NodeAt(s: Space, i: nat, a: nat)
    requires Sound(s) && i < |s.lists| && a in s.lists[i]
    ensures a in s.tiles.size && s.tiles.size[a] == I2U(i) && a !in s.live && a !in s.loose
  {
    assert NodeOk(s, i, a);
  }

  lemma HomeOf(s: Space, b: nat)
    requires Sound(s) && b in s.tiles.size
    ensures 0 < b < |s.link|
    ensures b in s.live || b in s.loose || exists i :: OnList(s, i, b)
  {
    assert HomeOk(s, b);
  }

  /** A block is on at most one list. */
  lemma OneList(s: Space, i: nat, j: nat, a: nat)
    requires Sound(s) && OnList(s, i, a) && OnList(s, j, a)
    ensures i == j
  {
    NodeAt(s, i, a);
    NodeAt(s, j, a);
    ClassOfOwnSize(i);
    ClassOfOwnSize(j);
  }

  /** Writing the word of a unit outside a list leaves the list as it is. */
  lemma {:induction false} LinkedFrame(link: seq<nat>, head: nat, l: seq<nat>, node: nat, w: nat)
    requires Linked(link, head, l) && node < |link| && node !in l
    ensures Linked(link[node := w], head, l)
    decreases |l|
  {
    if l == [] {
    } else {
      assert l[0] in l;
      LinkedFrame(link, link[head], l[1..], node, w);
    }
  }

  // ---------- putting on and taking off a list ----------

  ghost function Insert(s: Space, node: nat, i: nat): Space
    requires node < |s.link| && i < |s.freeList| && i < |s.lists|
  {
    s.(link := s.link[node := s.freeList[i]], freeList := s.freeList[i := node],
       lists := s.lists[i := [node] + s.lists[i]], loose := s.loose - {node})
  }

  lemma InsertSound(s: Space, node: nat, i: nat)
    requires Sound(s) && node in s.loose && i < NUM_INDEXES && s.tiles.size[node] == I2U(i)
    ensures 0 < node < |s.link| && |s.freeList| == NUM_INDEXES && |s.lists| == NUM_INDEXES
    ensures Sound(Insert(s, node, i))
  {
    hide Sound;
    SoundBasics(s);
    HomeOf(s, node);
    var r := Insert(s, node, i);
    forall j: nat ensures ListOk(r, j) {
      if j < NUM_INDEXES {
        ListAt(s, j);
        if node in s.lists[j] {
          NodeAt(s, j, node);
        }
        LinkedFrame(s.link, s.freeList[j], s.lists[j], node, s.freeList[i]);
        assert ([node] + s.lists[j])[1..] == s.lists[j];
      }
    }
    forall j: nat, a: nat ensures NodeOk(r, j, a) {
      if j < |r.lists| && a in r.lists[j] {
        if j != i || a != node {
          NodeAt(s, j, a);
        }
      }
    }
    forall b: nat ensures HomeOk(r, b) {
      if b in s.tiles.size {
        HomeOf(s, b);
        if b == node {
          assert OnList(r, i, b);
        } else if k :| OnList(s, k, b) {
          assert OnList(r, k, b);
        }
      }
    }
    SoundIntro(r);
  }

  lemma SoundBasics(s: Space)
    requires Sound(s)
    ensures |s.freeList| == NUM_INDEXES && |s.lists| == NUM_INDEXES && Tiled(s.tiles)
    ensures s.live <= s.tiles.size.Keys && s.loose <= s.tiles.size.Keys && s.live !! s.loose
  {
  }

  lemma SoundIntro(s: Space)
    requires |s.freeList| == NUM_INDEXES && |s.lists| == NUM_INDEXES && Tiled(s.tiles)
    requires s.live <= s.tiles.size.Keys && s.loose <= s.tiles.size.Keys && s.live !! s.loose
    requires forall i :: ListOk(s, i)
    requires forall i, a :: NodeOk(s, i, a)
    requires forall b :: HomeOk(s, b)
    ensures Sound(s)
  {
  }

  ghost function Remove(s: Space, i: nat): Space
    requires i < |s.freeList| && i < |s.lists| && s.lists[i] != [] && s.freeList[i] < |s.link|
  {
    s.(freeList := s.freeList[i := s.link[s.freeList[i]]], lists := s.lists[i := s.lists[i][1..]],
       loose := s.loose + {s.freeList[i]})
  }

  lemma RemoveSound(s: Space, i: nat)
    requires Sound(s) && i < NUM_INDEXES && |s.freeList| == |s.lists| == NUM_INDEXES && s.freeList[i] != 0
    ensures s.lists[i] != [] && s.freeList[i] == s.lists[i][0] && 0 < s.freeList[i] < |s.link|
    ensures Sound(Remove(s, i))
    ensures s.freeList[i] in s.tiles.size && s.tiles.size[s.freeList[i]] == I2U(i)
    ensures s.freeList[i] !in s.live && s.freeList[i] !in s.loose
  {
    hide Sound;
    SoundBasics(s);
    ListAt(s, i);
    var node := s.freeList[i];
    NodeAt(s, i, node);
    var r := Remove(s, i);
    forall j: nat ensures ListOk(r, j) {
      if j < NUM_INDEXES {
        ListAt(s, j);
      }
    }
    forall j: nat, a: nat ensures NodeOk(r, j, a) {
      if j < |r.lists| && a in r.lists[j] {
        NodeAt(s, j, a);
        if a == node {
          OneList(s, i, j, a);
        }
      }
    }
    forall b: nat ensures HomeOk(r, b) {
      if b in s.tiles.size {
        HomeOf(s, b);
        if b != node {
          if k :| OnList(s, k, b) {
            assert OnList(r, k, b);
          }
        }
      }
    }
    SoundIntro(r);
  }

  // ---------- loose blocks change hands ----------

  lemma TakeSound(s: Space, b: nat)
    requires Sound(s) && b in s.loose
    ensures Sound(s.(live := s.live + {b}, loose := s.loose - {b}))
  {
    ShiftSound(s, s.live + {b}, s.loose - {b});
  }

  lemma ReleaseSound(s: Space, b: nat)
    requires Sound(s) && b in s.live
    ensures Sound(s.(live := s.live - {b}, loose := s.loose + {b}))
  {
    ShiftSound(s, s.live - {b}, s.loose + {b});
  }

  lemma ShiftSound(s: Space, live: set<nat>, loose: set<nat>)
    requires Sound(s) && live + loose == s.live + s.loose && live !! loose
    ensures Sound(s.(live := live, loose := loose))
  {
    hide Sound;
    SoundBasics(s);
    var r := s.(live := live, loose := loose);
    forall j: nat ensures ListOk(r, j) {
      if j < NUM_INDEXES {
        ListAt(s, j);
      }
    }
    forall j: nat, a: nat ensures NodeOk(r, j, a) {
      if j < |r.lists| && a in r.lists[j] {
        NodeAt(s, j, a);
        assert a !in live + loose;
      }
    }
    forall b: nat ensures HomeOk(r, b) {
      if b in s.tiles.size {
        HomeOf(s, b);
        assert b in s.live || b in s.loose ==> b in live + loose;
        if k :| OnList(s, k, b) {
          assert OnList(r, k, b);
        }
      }
    }
    SoundIntro(r);
  }

  // ---------- loose blocks are cut, joined, added and dropped ----------

  /** New tiles that keep every block not loose, and whose other blocks are loose. */
  ghost predicate SameKept(s: Space, tiles: Tiles, live: set<nat>, loose: set<nat>) {
    && Tiled(tiles)
    && live <= tiles.size.Keys && loose <= tiles.size.Keys && live !! loose
    && (forall b :: b in s.tiles.size && b !in s.loose && b !in s.live ==>
          b in tiles.size && tiles.size[b] == s.tiles.size[b] && b !in live && b !in loose)
    && (forall b :: b in tiles.size ==>
          0 < b < |s.link| && (b in live || b in loose || (b in s.tiles.size && b !in s.live && b !in s.loose)))
  }

  lemma RetileSound(s: Space, tiles: Tiles, live: set<nat>, loose: set<nat>)
    requires Sound(s) && SameKept(s, tiles, live, loose)
    ensures Sound(s.(tiles := tiles, live := live, loose := loose))
  {
    hide Sound;
    SoundBasics(s);
    var r := s.(tiles := tiles, live := live, loose := loose);
    forall j: nat ensures ListOk(r, j) {
      if j < NUM_INDEXES {
        ListAt(s, j);
      }
    }
    forall j: nat, a: nat ensures NodeOk(r, j, a) {
      if j < |r.lists| && a in r.lists[j] {
        NodeAt(s, j, a);
      }
    }
    forall b: nat ensures HomeOk(r, b) {
      if b in tiles.size && b !in live && b !in loose {
        HomeOf(s, b);
        var k :| OnList(s, k, b);
        assert OnList(r, k, b);
      }
    }
    SoundIntro(r);
  }

  lemma CutSound(s: Space, b: nat, k: nat)
    requires Sound(s) && b in s.loose && 0 < k < s.tiles.size[b] && b + k < |s.link|
    ensures Sound(s.(tiles := Cut(s.tiles, b, k), loose := s.loose + {b + k}))
    ensures b + k !in s.tiles.size
  {
    hide Sound;
    hide Tiled;
    SoundBasics(s);
    CutTiled(s.tiles, b, k);
    forall c | c in s.tiles.size ensures 0 < c < |s.link| {
      HomeOf(s, c);
    }
    RetileSound(s, Cut(s.tiles, b, k), s.live, s.loose + {b + k});
  }

  lemma JoinSound(s: Space, b: nat)
    requires Sound(s) && b in s.loose && b + s.tiles.size[b] in s.loose
    ensures Sound(s.(tiles := Join(s.tiles, b), loose := s.loose - {b + s.tiles.size[b]}))
    ensures 0 < s.tiles.size[b]
  {
    hide Sound;
    hide Tiled;
    SoundBasics(s);
    JoinTiled(s.tiles, b);
    forall c | c in s.tiles.size ensures 0 < c < |s.link| {
      HomeOf(s, c);
    }
    RetileSound(s, Join(s.tiles, b), s.live, s.loose - {b + s.tiles.size[b]});
  }

  lemma AddSound(s: Space, b: nat, k: nat)
    requires Sound(s) && 0 < k && 0 < b < |s.link| && Range(b, k) !! s.tiles.owner.Keys
    ensures Sound(s.(tiles := Add(s.tiles, b, k), live := s.live + {b})) && b !in s.tiles.size
  {
    hide Sound;
    hide Tiled;
    SoundBasics(s);
    AddTiled(s.tiles, b, k);
    forall c | c in s.tiles.size ensures 0 < c < |s.link| {
      HomeOf(s, c);
    }
    RetileSound(s, Add(s.tiles, b, k), s.live + {b}, s.loose);
  }

  lemma DropSound(s: Space, b: nat)
    requires Sound(s) && b in s.loose
    ensures Sound(s.(tiles := Drop(s.tiles, b), loose := s.loose - {b}))
  {
    hide Sound;
    hide Tiled;
    SoundBasics(s);
    DropTiled(s.tiles, b);
    forall c | c in s.tiles.size ensures 0 < c < |s.link| {
      HomeOf(s, c);
    }
    RetileSound(s, Drop(s.tiles, b), s.live, s.loose - {b});
  }

  /** Writing a unit that no list runs through. */
  lemma PokeSound(s: Space, u: nat, w: nat)
    requires Sound(s) && u < |s.link| && (u in s.tiles.size ==> u in s.live || u in s.loose)
    ensures Sound(s.(link := s.link[u := w]))
  {
    hide Sound;
    SoundBasics(s);
    var r := s.(link := s.link[u := w]);
    forall j: nat ensures ListOk(r, j) {
      if j < NUM_INDEXES {
        ListAt(s, j);
        if u in s.lists[j] {
          NodeAt(s, j, u);
        }
        LinkedFrame(s.link, s.freeList[j], s.lists[j], u, w);
      }
    }
    forall j: nat, a: nat ensures NodeOk(r, j, a) {
      if j < |r.lists| && a in r.lists[j] {
        NodeAt(s, j, a);
      }
    }
    forall b: nat ensures HomeOk(r, b) {
      if b in s.tiles.size {
        HomeOf(s, b);
        if k :| OnList(s, k, b) {
          assert OnList(r, k, b);
        }
      }
    }
    SoundIntro(r);
  }

  // ---------- taking a block from the middle of a list ----------

  function Deleted(l: seq<nat>, k: nat): seq<nat>
    requires k < |l|
  {
    l[..k] + l[k + 1..]
  }

  lemma DeletedAt(l: seq<nat>, d: nat, k: nat)
    requires d < |l| && k < |l| && d != k
    ensures var k' := k - if d < k then 1 else 0;
            |Deleted(l, d)| == |l| - 1 && k' < |l| - 1 && Deleted(l, d)[k'] == l[k]
  {
  }

  /** What stands before node `k` still does when node `d` is gone. */
  lemma DeletedPrefix(l: seq<nat>, d: nat, k: nat)
    requires d < |l| && k < |l| && d != k
    ensures k - (if d < k then 1 else 0) < |Deleted(l, d)|
    ensures forall j :: 0 <= j < k - (if d < k then 1 else 0) ==> Deleted(l, d)[j] in l[..k]
  {
    var k', r := k - (if d < k then 1 else 0), Deleted(l, d);
    forall j | 0 <= j < k' ensures r[j] in l[..k] {
      assert r[j] == l[..k][if j < d then j else j + 1];
    }
  }

  lemma {:induction false} LinkedAt(link: seq<nat>, head: nat, l: seq<nat>, k: nat)
    requires Linked(link, head, l) && k < |l|
    ensures 0 < l[k] < |link| && link[l[k]] == if k + 1 < |l| then l[k + 1] else 0
    ensures k == 0 ==> head == l[0]
    ensures k > 0 ==> l[k - 1] < |link| && link[l[k - 1]] == l[k]
    decreases k
  {
    if k > 0 {
      LinkedAt(link, link[head], l[1..], k - 1);
    }
  }

  /** Pointing the word before a node at what follows the node takes the node out. */
  lemma {:induction false} LinkedDelete(link: seq<nat>, head: nat, l: seq<nat>, k: nat)
    requires Linked(link, head, l) && NoDup(l) && 0 < k < |l| && l[k - 1] < |link| && l[k] < |link|
    ensures Linked(link[l[k - 1] := link[l[k]]], head, Deleted(l, k))
    decreases k
  {
    var m := link[l[k - 1] := link[l[k]]];
    var d := Deleted(l, k);
    assert l[0] == d[0];
    if k == 1 {
      assert d[1..] == l[2..] == l[1..][1..];
      assert head !in l[2..];
      LinkedFrame(link, link[l[1]], l[2..], head, link[l[1]]);
    } else {
      assert d[1..] == Deleted(l[1..], k - 1);
      assert l[0] != l[k - 1];
      LinkedDelete(link, link[head], l[1..], k - 1);
    }
    LinkedCons(m, head, d);
  }

  lemma DeletedMembers(l: seq<nat>, k: nat)
    requires NoDup(l) && k < |l|
    ensures NoDup(Deleted(l, k)) && forall x :: x in Deleted(l, k) <==> x in l && x != l[k]
  {
    var d := Deleted(l, k);
    forall j | 0 <= j < |d| ensures d[j] == l[if j < k then j else j + 1] {
    }
    forall x | x in l && x != l[k] ensures x in d {
      var j :| 0 <= j < |l| && l[j] == x;
      assert d[if j < k then j else j - 1] == x;
    }
  }

  /** Node `k` of list `i` is taken out. */
  ghost function Unlinked(s: Space, i: nat, k: nat): Space
    requires i < |s.freeList| && i < |s.lists| && k < |s.lists[i]| && s.lists[i][k] < |s.link|
    requires k > 0 ==> s.lists[i][k - 1] < |s.link|
  {
    var l := s.lists[i];
    var after := s.link[l[k]];
    if k == 0 then
      s.(freeList := s.freeList[i := after], lists := s.lists[i := Deleted(l, k)], loose := s.loose + {l[k]})
    else
      s.(link := s.link[l[k - 1] := after], lists := s.lists[i := Deleted(l, k)], loose := s.loose + {l[k]})
  }

  lemma UnlinkSound(s: Space, i: nat, k: nat)
    requires Sound(s) && i < NUM_INDEXES && |s.freeList| == |s.lists| == NUM_INDEXES && k < |s.lists[i]|
    ensures 0 < s.lists[i][k] < |s.link| && (k > 0 ==> s.lists[i][k - 1] < |s.link|)
    ensures Sound(Unlinked(s, i, k)) && s.lists[i][k] !in s.live && s.lists[i][k] in s.tiles.size
    ensures s.lists[i][k] !in s.loose
  {
    hide Sound;
    hide Deleted;
    SoundBasics(s);
    ListAt(s, i);
    var l := s.lists[i];
    LinkedAt(s.link, s.freeList[i], l, k);
    NodeAt(s, i, l[k]);
    DeletedMembers(l, k);
    var r := Unlinked(s, i, k);
    forall j: nat ensures ListOk(r, j) {
      if j < NUM_INDEXES {
        UnlinkedList(s, i, k, j);
      }
    }
    forall j: nat, a: nat ensures NodeOk(r, j, a) {
      if j < |r.lists| && a in r.lists[j] {
        NodeAt(s, j, a);
        if a == l[k] {
          OneList(s, i, j, a);
        }
      }
    }
    forall b: nat ensures HomeOk(r, b) {
      if b in s.tiles.size {
        HomeOf(s, b);
        if j :| OnList(s, j, b) {
          assert b != l[k] ==> OnList(r, j, b);
        }
      }
    }
    SoundIntro(r);
  }

  lemma UnlinkedList(s: Space, i: nat, k: nat, j: nat)
    requires Sound(s) && i < NUM_INDEXES && j < NUM_INDEXES && |s.freeList| == |s.lists| == NUM_INDEXES
    requires k < |s.lists[i]| && s.lists[i][k] < |s.link| && (k > 0 ==> s.lists[i][k - 1] < |s.link|)
    ensures ListOk(Unlinked(s, i, k), j)
  {
    hide Sound;
    ListAt(s, i);
    ListAt(s, j);
    var l := s.lists[i];
    DeletedMembers(l, k);
    if k == 0 {
      assert Deleted(l, 0) == l[1..];
    } else if j == i {
      LinkedDelete(s.link, s.freeList[i], l, k);
    } else {
      if l[k - 1] in s.lists[j] {
        assert OnList(s, i, l[k - 1]) && OnList(s, j, l[k - 1]);
        OneList(s, i, j, l[k - 1]);
      }
      LinkedFrame(s.link, s.freeList[j], s.lists[j], l[k - 1], s.link[l[k]]);
    }
  }

  // ---------- the blocks from an address on ----------

  /** The nodes of a list from `bound` on, in order. */
  function Above(l: seq<nat>, bound: nat): seq<nat> {
    if l == [] then [] else (if l[0] < bound then [] else [l[0]]) + Above(l[1..], bound)
  }

  function CountBelow(l: seq<nat>, bound: nat): nat {
    if l == [] then 0 else (if l[0] < bound then 1 else 0) + CountBelow(l[1..], bound)
  }

  lemma {:induction false} AboveMembers(l: seq<nat>, bound: nat)
    ensures forall x :: x in Above(l, bound) <==> x in l && bound <= x
  {
    if l == [] {
    } else {
      AboveMembers(l[1..], bound);
      assert l == [l[0]] + l[1..];
    }
  }

  lemma {:induction false} AboveConcat(a: seq<nat>, b: seq<nat>, bound: nat)
    ensures Above(a + b, bound) == Above(a, bound) + Above(b, bound)
    ensures CountBelow(a + b, bound) == CountBelow(a, bound) + CountBelow(b, bound)
  {
    if a == [] {
      assert a + b == b;
    } else {
      assert (a + b)[1..] == a[1..] + b && (a + b)[0] == a[0];
      AboveConcat(a[1..], b, bound);
      var first := if a[0] < bound then [] else [a[0]];
      assert first + (Above(a[1..], bound) + Above(b, bound)) == first + Above(a[1..], bound) + Above(b, bound);
    }
  }

  lemma HeadAndTail(l: seq<nat>)
    requires l != []
    ensures forall x: nat :: x in l <==> x == l[0] || x in l[1..]
  {
    assert l == [l[0]] + l[1..];
  }

  /** Counting nothing below, a list is its own rest. */
  lemma {:induction false} NoneBelow(l: seq<nat>, bound: nat)
    ensures CountBelow(l, bound) == 0 <==> forall x :: x in l ==> bound <= x
    ensures CountBelow(l, bound) == 0 ==> Above(l, bound) == l
  {
    if l == [] {
    } else {
      NoneBelow(l[1..], bound);
      HeadAndTail(l);
      assert l[0] in l;
      assert CountBelow(l, bound) == 0 ==> l[0] >= bound && CountBelow(l[1..], bound) == 0;
      assert (forall x :: x in l ==> bound <= x) ==> forall x :: x in l[1..] ==> bound <= x;
    }
  }

  /** Deleting a node below the bound changes nothing above it. */
  lemma DeleteBelow(l: seq<nat>, k: nat, bound: nat)
    requires k < |l| && l[k] < bound
    ensures Above(Deleted(l, k), bound) == Above(l, bound)
    ensures CountBelow(Deleted(l, k), bound) == CountBelow(l, bound) - 1
    ensures |Deleted(l, k)| == |l| - 1 && forall j :: 0 <= j < k ==> Deleted(l, k)[j] == l[j]
    ensures CountBelow(Deleted(l, k)[k..], bound) == CountBelow(l[k..], bound) - 1
  {
    assert Deleted(l, k)[k..] == l[k + 1..] == l[k..][1..];
    AboveConcat(l[..k], l[k..], bound);
    assert l == l[..k] + l[k..];
    AboveConcat(l[..k], l[k + 1..], bound);
  }

  /** Raising the bound past one node counts that node. */
  lemma {:induction false} CountStep(l: seq<nat>, low: nat, high: nat)
    requires NoDup(l) && low < high && forall x :: x in l && low < x ==> high <= x
    ensures CountBelow(l, high) == CountBelow(l, low) + if low in l then 1 else 0
  {
    if l == [] {
    } else {
      HeadAndTail(l);
      assert l[0] !in l[1..];
      forall j, k | 0 <= j < k < |l[1..]| ensures l[1..][j] != l[1..][k] {
        assert l[1..][j] == l[j + 1] && l[1..][k] == l[k + 1];
      }
      CountStep(l[1..], low, high);
    }
  }

  /** No block reaches across `bound`. */
  ghost predicate Boundary(t: Tiles, bound: nat) {
    forall b :: b in t.size && b < bound ==> b + t.size[b] <= bound
  }

  ghost function Trim(t: Tiles, bound: nat): Tiles {
    Tiles(map u | u in t.owner && bound <= u :: t.owner[u], map b | b in t.size && bound <= b :: t.size[b])
  }

  lemma TrimTiled(t: Tiles, bound: nat)
    requires Tiled(t) && Boundary(t, bound)
    ensures Tiled(Trim(t, bound))
  {
    hide Tiled;
    var r := Trim(t, bound);
    forall u: nat ensures OwnerOk(r, u) {
      if u in r.owner {
        OwnerOf(t, u);
      }
    }
    forall b: nat, u: nat ensures BlockOk(r, b, u) {
      if b in r.size {
        Owned(t, b, u);
      }
    }
    TiledIntro(r);
  }

  /** The loose blocks below `bound` are given up. */
  lemma TrimSound(s: Space, bound: nat)
    requires Sound(s) && Boundary(s.tiles, bound) && forall b :: b in s.tiles.size ==> (b in s.loose <==> b < bound)
    ensures Sound(s.(tiles := Trim(s.tiles, bound), loose := {}))
  {
    hide Sound;
    hide Tiled;
    SoundBasics(s);
    TrimTiled(s.tiles, bound);
    forall c | c in s.tiles.size ensures 0 < c < |s.link| {
      HomeOf(s, c);
    }
    RetileSound(s, Trim(s.tiles, bound), s.live, {});
  }

  // ---------- chains built by hand ----------

  /** The chain `l` from `head`, but for what its last word says, goes on with `x`. */
  lemma {:induction false} LinkedSnoc(link: seq<nat>, head: nat, l: seq<nat>, x: nat)
    requires l != [] && l[|l| - 1] < |link| && Linked(link[l[|l| - 1] := 0], head, l)
    requires 0 < x < |link| && x !in l && NoDup(l)
    ensures Linked(link[l[|l| - 1] := x][x := 0], head, l + [x])
    decreases |l|
  {
    var p := l[|l| - 1];
    var m := link[p := x][x := 0];
    if |l| == 1 {
      assert Linked(m, x, [x]) by {
        assert [x][1..] == [] && Linked(m, m[x], []);
      }
      assert (l + [x])[0] == l[0] && (l + [x])[1..] == [x];
      assert m[head] == x;
      LinkedCons(m, head, l + [x]);
    } else {
      assert l[0] != p && l[0] in l;
      assert l[1..][|l[1..]| - 1] == p;
      LinkedSnoc(link, link[head], l[1..], x);
      assert (l + [x])[0] == l[0] && (l + [x])[1..] == l[1..] + [x];
      assert m[head] == link[head];
      LinkedCons(m, head, l + [x]);
    }
  }

  lemma LinkedCons(link: seq<nat>, head: nat, l: seq<nat>)
    requires l != [] && head == l[0] && 0 < head < |link| && Linked(link, link[head], l[1..])
    ensures Linked(link, head, l)
  {
  }

  /** A chain holds references inside the memory, none of them null. */
  lemma {:induction false} LinkedBounds(link: seq<nat>, head: nat, l: seq<nat>)
    requires Linked(link, head, l)
    ensures forall x :: x in l ==> 0 < x < |link|
    decreases |l|
  {
    if l == [] {
    } else {
      LinkedBounds(link, link[head], l[1..]);
      assert l == [l[0]] + l[1..];
    }
  }

  /** All lists from `i` on, one after the other. */
  function Flat(lists: seq<seq<nat>>, i: nat): seq<nat>
    requires i <= |lists|
    decreases |lists| - i
  {
    if i == |lists| then [] else lists[i] + Flat(lists, i + 1)
  }

  lemma {:induction false} FlatMembers(lists: seq<seq<nat>>, i: nat)
    requires i <= |lists|
    ensures forall x :: x in Flat(lists, i) <==> exists j :: i <= j < |lists| && x in lists[j]
    decreases |lists| - i
  {
    if i == |lists| {
    } else {
      FlatMembers(lists, i + 1);
      forall x ensures x in Flat(lists, i) <==> exists j :: i <= j < |lists| && x in lists[j] {
        if x in lists[i] {
          assert x in Flat(lists, i);
        }
        if j :| i <= j < |lists| && x in lists[j] {
          assert j == i || x in Flat(lists, i + 1);
        }
      }
    }
  }

  /** All lists together hold the blocks that are neither in use nor loose. */
  lemma FlatNodes(s: Space)
    requires Sound(s)
    ensures |s.lists| == NUM_INDEXES && NoDup(Flat(s.lists, 0))
    ensures forall b :: b in Flat(s.lists, 0) <==> b in s.tiles.size && b !in s.live && b !in s.loose
    ensures forall b :: b in s.tiles.size ==> 0 < b < |s.link|
  {
    hide Sound;
    hide Flat;
    hide NoDup;
    SoundBasics(s);
    FlatNoDup(s, 0);
    FlatMembers(s.lists, 0);
    forall b: nat ensures b in Flat(s.lists, 0) <==> b in s.tiles.size && b !in s.live && b !in s.loose {
      if b in Flat(s.lists, 0) {
        var j: nat :| j < |s.lists| && b in s.lists[j];
        NodeAt(s, j, b);
      }
      if b in s.tiles.size && b !in s.live && b !in s.loose {
        HomeOf(s, b);
        var j: nat :| OnList(s, j, b);
        assert b in s.lists[j];
      }
    }
    forall b | b in s.tiles.size ensures 0 < b < |s.link| {
      HomeOf(s, b);
    }
  }

  /** No block is met twice along all lists. */
  lemma {:induction false} FlatNoDup(s: Space, i: nat)
    requires Sound(s) && i <= NUM_INDEXES && |s.lists| == NUM_INDEXES
    ensures NoDup(Flat(s.lists, i))
    decreases NUM_INDEXES - i
  {
    hide Sound;
    if i < NUM_INDEXES {
      ListAt(s, i);
      FlatNoDup(s, i + 1);
      FlatMembers(s.lists, i + 1);
      forall x | x in s.lists[i] ensures x !in Flat(s.lists, i + 1) {
        if x in Flat(s.lists, i + 1) {
          var j :| i + 1 <= j < |s.lists| && x in s.lists[j];
          assert OnList(s, i, x) && OnList(s, j, x);
          OneList(s, i, j, x);
        }
      }
      NoDupConcat(s.lists[i], Flat(s.lists, i + 1));
    }
  }

  lemma NoDupConcat(a: seq<nat>, b: seq<nat>)
    requires NoDup(a) && NoDup(b) && forall x :: x in a ==> x !in b
    ensures NoDup(a + b)
  {
    var c := a + b;
    forall j, k | 0 <= j < k < |c| ensures c[j] != c[k] {
      if j < |a| <= k {
        assert c[j] in a && c[k] == b[k - |a|] && c[k] in b;
      }
    }
  }

  // ---------- counting free units ----------

  /** The units on the lists from `i` on, by the lengths of the lists. */
  function ListUnits(lists: seq<seq<nat>>, i: nat): nat
    requires i <= |lists|
    decreases |lists| - i
  {
    if i == |lists| then 0 else |lists[i]| * I2U(i) + ListUnits(lists, i + 1)
  }

  ghost function Members(l: seq<nat>): (r: set<nat>)
    ensures forall x :: x in r <==> x in l
  {
    set x | x in l
  }

  lemma {:induction false} UnitsOfNodes(t: Tiles, l: seq<nat>, n: nat)
    requires Tiled(t) && NoDup(l) && forall x :: x in l ==> x in t.size && t.size[x] == n
    ensures |Units(t, Members(l))| == |l| * n
    decreases |l|
  {
    hide Tiled;
    if l == [] {
      assert Units(t, Members(l)) == {};
    } else {
      HeadAndTail(l);
      TailNoDup(l);
      UnitsOfNodes(t, l[1..], n);
      OneBlockUnits(t, l[0]);
      assert Members(l) == {l[0]} + Members(l[1..]);
      UnitsSplit(t, {l[0]}, Members(l[1..]));
      TimesStep(|l|, n);
    }
  }

  lemma TailNoDup(l: seq<nat>)
    requires l != [] && NoDup(l)
    ensures NoDup(l[1..]) && l[0] !in l[1..]
  {
    forall j, k | 0 <= j < k < |l[1..]| ensures l[1..][j] != l[1..][k] {
      assert l[1..][j] == l[j + 1] && l[1..][k] == l[k + 1];
    }
  }

  lemma TimesStep(n: nat, u: nat)
    requires n > 0
    ensures u + (n - 1) * u == n * u
  {
  }

  lemma {:induction false} UnitsFrom(s: Space, i: nat)
    requires Sound(s) && i <= NUM_INDEXES == |s.lists|
    ensures |Units(s.tiles, Members(Flat(s.lists, i)))| == ListUnits(s.lists, i)
    decreases NUM_INDEXES - i
  {
    hide Sound;
    hide NoDup;
    hide Tiled;
    SoundBasics(s);
    if i == NUM_INDEXES {
      assert Units(s.tiles, Members(Flat(s.lists, i))) == {};
    } else {
      UnitsFrom(s, i + 1);
      var l, rest := s.lists[i], Flat(s.lists, i + 1);
      ListAt(s, i);
      FlatMembers(s.lists, i + 1);
      forall x: nat | x in l ensures x in s.tiles.size && s.tiles.size[x] == I2U(i) && x !in rest {
        NodeAt(s, i, x);
        if x in rest {
          var j: nat :| i + 1 <= j < |s.lists| && x in s.lists[j];
          assert OnList(s, i, x) && OnList(s, j, x);
          OneList(s, i, j, x);
        }
      }
      UnitsOfNodes(s.tiles, l, I2U(i));
      assert Members(l + rest) == Members(l) + Members(rest);
      UnitsSplit(s.tiles, Members(l), Members(rest));
    }
  }

  /** The units of the area are those in use and those the lists account for. */
  lemma UnitsAccounted(s: Space)
    requires Sound(s) && s.loose == {}
    ensures |s.lists| == NUM_INDEXES
    ensures |s.tiles.owner.Keys| == |Units(s.tiles, s.live)| + ListUnits(s.lists, 0)
  {
    hide Sound;
    hide Flat;
    hide NoDup;
    SoundBasics(s);
    FlatNodes(s);
    UnitsFrom(s, 0);
    var free := Members(Flat(s.lists, 0));
    assert s.live + free == s.tiles.size.Keys;
    UnitsSplit(s.tiles, s.live, free);
    AllUnits(s.tiles);
  }

  /** All lists emptied at once: every free block becomes loose. */
  ghost function Emptied(s: Space): Space {
    s.(freeList := seq(NUM_INDEXES, _ => 0), lists := seq(NUM_INDEXES, _ => []), loose := s.tiles.size.Keys - s.live)
  }

  lemma EmptiedSound(s: Space)
    requires Sound(s)
    ensures Sound(Emptied(s))
  {
    hide Sound;
    SoundBasics(s);
    var r := Emptied(s);
    forall j: nat ensures ListOk(r, j) {
    }
    forall j: nat, a: nat ensures NodeOk(r, j, a) {
    }
    forall b: nat ensures HomeOk(r, b) {
      if b in s.tiles.size {
        HomeOf(s, b);
      }
    }
    SoundIntro(r);
  }

  /** With all lists empty, what is not in use is loose. */
  ghost predicate NothingListed(s: Space) {
    && s.freeList == seq(NUM_INDEXES, _ => 0)
    && (forall i :: 0 <= i < |s.lists| ==> s.lists[i] == [])
    && s.loose == s.tiles.size.Keys - s.live
  }
}
