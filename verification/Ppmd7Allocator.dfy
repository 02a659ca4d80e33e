/** The PPMd7 sub-allocator: plain free lists over an arena of 12-byte units, glued through a doubly linked ring. */
module Ppmd7Allocator {
  import opened Tiling
  import opened SizeClasses
  import opened FreeSpace
  import opened InUse
  import opened FreeRuns

  /**
    The three words of a unit. On a free list the first one is the link; while gluing, and in a block in use, its low
    half is the stamp and its high half the number of units.
   */
  datatype Cell = Cell(word0: nat, next: nat, prev: nat)

  const UNIT_SIZE: nat := 12

  function Stamp(w: nat): nat {
    w % 0x1_0000
  }

  function Nu(w: nat): nat {
    w / 0x1_0000 % 0x1_0000
  }

  function WithStamp(w: nat, stamp: nat): (r: nat)
    requires stamp < 0x1_0000
    ensures Stamp(r) == stamp && Nu(r) == Nu(w)
  {
    w / 0x1_0000 * 0x1_0000 + stamp
  }

  function WithNu(w: nat, nu: nat): (r: nat)
    requires nu < 0x1_0000
    ensures Stamp(r) == Stamp(w) && Nu(r) == nu
  {
    w % 0x1_0000 + nu * 0x1_0000
  }

  ghost predicate LinksOf(arena: seq<Cell>, link: seq<nat>) {
    |link| == |arena| && forall u :: 0 <= u < |arena| ==> link[u] == arena[u].word0
  }

  /** A block in use, apart from those in `but`, has a stamp. */
  ghost predicate UseOk(s: Space, arena: seq<Cell>, but: set<nat>, b: nat) {
    b in s.live && b !in but ==> b < |arena| && Stamp(arena[b].word0) != 0
  }

  // ---------- the ring of free blocks ----------

  ghost predicate RingAt(a: seq<Cell>, f: seq<nat>, j: nat) {
    j + 1 < |f| ==> f[j] < |a| && f[j + 1] < |a| && a[f[j]].next == f[j + 1] && a[f[j + 1]].prev == f[j]
  }

  ghost predicate NextAt(a: seq<Cell>, f: seq<nat>, j: nat) {
    j + 1 < |f| ==> f[j] < |a| && a[f[j]].next == f[j + 1]
  }

  ghost predicate Forward(a: seq<Cell>, f: seq<nat>) {
    forall j :: NextAt(a, f, j)
  }

  ghost predicate HalfRing(a: seq<Cell>, f: seq<nat>) {
    forall j :: RingAt(a, f, j)
  }

  /** A node in front of the half ring. */
  lemma HalfRingCons(a: seq<Cell>, m: seq<Cell>, c: seq<nat>, h: nat, x: nat)
    requires HalfRing(a, c + [h]) && NoDup(c) && h !in c && x !in c && x != h && x < |a| == |m| && h < |a|
    requires var n := (c + [h])[0];
             && n < |a| && m[x].next == n && m[n].prev == x
             && (forall u :: 0 <= u < |a| && u != x ==> m[u].next == a[u].next)
             && (forall u :: 0 <= u < |a| && u != n ==> m[u].prev == a[u].prev)
    ensures HalfRing(m, [x] + c + [h])
  {
    var f := c + [h];
    var g := [x] + c + [h];
    assert g == [x] + f;
    forall j: nat ensures RingAt(m, g, j) {
      if j > 0 {
        assert RingAt(a, f, j - 1);
        ChainDistinct(c, h, 0, j);
        assert j < |f| ==> f[j - 1] in c && g[j] == f[j - 1] && g[j + 1] == f[j];
      }
    }
  }

  function Around(h: nat, c: seq<nat>): seq<nat> {
    [h] + c + [h]
  }

  /** From the head `h` through `c` back to `h`, and the same the other way round. */
  ghost predicate Ring(a: seq<Cell>, h: nat, c: seq<nat>) {
    HalfRing(a, Around(h, c))
  }

  lemma AroundDistinct(h: nat, c: seq<nat>, i: nat, j: nat)
    requires NoDup(c) && h !in c && i < j < |c| + 2 && !(i == 0 && j == |c| + 1)
    ensures Around(h, c)[i] != Around(h, c)[j]
  {
    var f := Around(h, c);
    assert 0 < i <= |c| ==> f[i] == c[i - 1] && f[i] in c;
    assert 0 < j <= |c| ==> f[j] == c[j - 1] && f[j] in c;
  }

  /** Pointing the neighbours of a node at each other takes the node out of the ring. */
  lemma RingDelete(a: seq<Cell>, h: nat, c: seq<nat>, k: nat)
    requires Ring(a, h, c) && NoDup(c) && h !in c && k < |c|
    ensures c[k] < |a| && a[c[k]].prev < |a| && a[c[k]].next < |a|
    ensures a[c[k]].prev != c[k] && a[c[k]].next != c[k]
    ensures var p, q := a[c[k]].prev, a[c[k]].next;
            var m := a[p := a[p].(next := q)];
            Ring(m[q := m[q].(prev := p)], h, Deleted(c, k))
  {
    hide Around;
    var f := Around(h, c);
    AroundIs(h, c);
    assert RingAt(a, f, k) && RingAt(a, f, k + 1);
    AroundDistinct(h, c, k, k + 1);
    AroundDistinct(h, c, k + 1, k + 2);
    var p, q := a[c[k]].prev, a[c[k]].next;
    var m := a[p := a[p].(next := q)];
    var r := m[q := m[q].(prev := p)];
    var g := Around(h, Deleted(c, k));
    AroundIs(h, Deleted(c, k));
    assert p == f[k] && q == f[k + 2] && p < |a| && q < |a|;
    assert r[p].next == q && r[q].prev == p;
    forall j | 0 <= j < |g| ensures g[j] == f[if j <= k then j else j + 1] {
      assert 0 < j < |g| - 1 ==> g[j] == Deleted(c, k)[j - 1];
    }
    forall j: nat ensures RingAt(r, g, j) {
      if j < k {
        assert RingAt(a, f, j);
        AroundDistinct(h, c, j, k);
        AroundDistinct(h, c, j + 1, k + 2);
      } else if k < j && j + 1 < |g| {
        assert RingAt(a, f, j + 1);
        AroundDistinct(h, c, k, j + 1);
        AroundDistinct(h, c, k + 2, j + 2);
      }
    }
  }

  lemma AroundIs(h: nat, c: seq<nat>)
    ensures var f := Around(h, c);
            |f| == |c| + 2 && f[0] == h == f[|c| + 1] && forall j :: 0 <= j < |c| ==> f[j + 1] == c[j]
  {
  }

  /** The neighbours of a node are nodes, or the head. */
  lemma RingBounds(a: seq<Cell>, h: nat, c: seq<nat>, k: nat)
    requires Ring(a, h, c) && k < |c| && c[k] < |a|
    ensures a[c[k]].prev == h || a[c[k]].prev in c
    ensures a[c[k]].next == h || a[c[k]].next in c
    ensures a[c[k]].next == if k + 1 < |c| then c[k + 1] else h
  {
    var f := Around(h, c);
    assert RingAt(a, f, k) && RingAt(a, f, k + 1);
  }

  /** Words that are not links of the ring may change freely. */
  lemma RingSame(a: seq<Cell>, m: seq<Cell>, h: nat, c: seq<nat>)
    requires Ring(a, h, c) && |m| == |a|
    requires forall u :: 0 <= u < |a| ==> m[u].next == a[u].next && m[u].prev == a[u].prev
    ensures Ring(m, h, c)
  {
    forall j: nat ensures RingAt(m, Around(h, c), j) {
      assert RingAt(a, Around(h, c), j);
    }
  }

  class Allocator7 {
    /** The address where the text area starts. */
    const base: nat
    /** All units and, behind them, the cell that heads the ring. Unit 0 is in no block, so that 0 is the null reference. */
    var arena: seq<Cell>
    var freeList: seq<nat>
    /** `text` is a byte address, the others are units of 12 bytes. */
    var text: nat
    var unitsStart: nat
    var loUnit: nat
    var hiUnit: nat
    var glueCount: nat
    ghost var space: Space

    /** The units behind the text area, without the gap. */
    ghost predicate InArea(u: nat)
      reads `arena, `unitsStart, `loUnit, `hiUnit
    {
      unitsStart <= u < |arena| - 1 && !(loUnit <= u < hiUnit)
    }

    /** The bounds of the areas, and the blocks tiling them: text never passes the units. */
    ghost predicate Laid()
      reads `arena, `unitsStart, `loUnit, `hiUnit, `text, `space
    {
      && 0 < unitsStart <= loUnit <= hiUnit < |arena| && base <= text < UNIT_SIZE * unitsStart
      && (forall u :: u in space.tiles.owner <==> InArea(u))
    }

    ghost predicate Struct()
      reads `arena, `freeList, `text, `unitsStart, `loUnit, `hiUnit, `space
    {
      Sound(space) && LinksOf(arena, space.link) && space.freeList == freeList && Laid()
    }

    ghost predicate Marked(but: set<nat>)
      reads `arena, `space
    {
      forall b :: UseOk(space, arena, but, b)
    }

    /** Between two operations: nothing is loose, and blocks in use outside `but` have a stamp. */
    ghost predicate Valid(but: set<nat>)
      reads `arena, `freeList, `text, `unitsStart, `loUnit, `hiUnit, `space
    {
      Struct() && Marked(but) && space.loose == {}
    }

    twostate predicate SameBounds()
      reads this
    {
      && |arena| == |old(arena)| && text == old(text) && unitsStart == old(unitsStart) && loUnit == old(loUnit)
      && hiUnit == old(hiUnit) && glueCount == old(glueCount)
    }

    /**
      RestartModel: seven eighths of the memory become units. The order-0 context takes the last of them, its 256 states
      the first 128. Addresses count from a point below the text area such that units start at multiples of 12.
     */
    constructor (size: nat, memory: seq<Cell>)
      requires 0x800 <= size && |memory| == UnitCount(size) + 1
      ensures Valid({}) && |arena| == |memory| && (forall u :: loUnit <= u < hiUnit ==> arena[u] == memory[u])
      ensures UNIT_SIZE * (|arena| - 1) - base == size && text == base && glueCount == 0
      ensures |arena| - 1 - unitsStart == UnitShare(size) && loUnit == unitsStart + 128 && hiUnit == |arena| - 2
      ensures space.live == {unitsStart, hiUnit} && freeList == seq(NUM_INDEXES, _ => 0)
    {
      var n := |memory| - 1;
      hide UnitShare;
      hide UnitCount;
      base := 12 * n - size;
      text := 12 * n - size;
      unitsStart := n - UnitShare(size);
      hiUnit := n - 1;
      loUnit := n - UnitShare(size) + 128;
      glueCount := 0;
      freeList := seq(NUM_INDEXES, _ => 0);
      arena := memory;
      new;
      hide Tiled;
      hide Sound;
      arena := arena[hiUnit := Cell(0x0101_0100, 0, 0)];
      arena := arena[unitsStart := Cell(0x0100, 0x0101, 0)];
      StartSpace();
    }

    lemma StartSound()
      requires 0 < unitsStart && loUnit == unitsStart + 128 && loUnit <= hiUnit == |arena| - 2
      requires base <= text < UNIT_SIZE * unitsStart && Tiled(space.tiles)
      requires space.tiles.size == map[unitsStart := 128, hiUnit := 1]
      requires forall u :: u in space.tiles.owner <==> InArea(u)
      requires space.live == {unitsStart, hiUnit} && space.loose == {} && LinksOf(arena, space.link)
      requires space.freeList == freeList == seq(NUM_INDEXES, _ => 0)
      requires space.lists == seq(NUM_INDEXES, _ => [])
      requires Stamp(arena[unitsStart].word0) != 0 && Stamp(arena[hiUnit].word0) != 0
      ensures Valid({})
    {
      hide Tiled;
      forall j: nat ensures ListOk(space, j) {
      }
      forall j: nat, a: nat ensures NodeOk(space, j, a) {
      }
      forall b: nat ensures HomeOk(space, b) {
      }
      SoundIntro(space);
      forall b: nat ensures UseOk(space, arena, {}, b) {
      }
    }

    /** Bookkeeping only: two blocks are in use, nothing is free. */
    ghost method StartSpace()
      requires 0 < unitsStart && loUnit == unitsStart + 128 && loUnit <= hiUnit == |arena| - 2
      requires base <= text < UNIT_SIZE * unitsStart && freeList == seq(NUM_INDEXES, _ => 0)
      requires Stamp(arena[unitsStart].word0) != 0 && Stamp(arena[hiUnit].word0) != 0
      modifies `space
      ensures Valid({}) && space.live == {unitsStart, hiUnit}
    {
      hide Tiled;
      hide Add;
      hide Sound;
      space := Space(seq(|arena|, u requires 0 <= u < |arena| reads this => arena[u].word0), freeList,
                     Add(Add(Tiles(map[], map[]), unitsStart, 128), hiUnit, 1),
                     seq(NUM_INDEXES, _ => []), {unitsStart, hiUnit}, {});
      StartTiles(unitsStart, hiUnit);
      StartSound();
    }

    method InsertNode(node: nat, indx: nat)
      requires Struct() && node in space.loose && indx < NUM_INDEXES && space.tiles.size[node] == I2U(indx)
      modifies `arena, `freeList, `space
      ensures Struct() && SameBounds()
      ensures node < |old(arena)| && |old(freeList)| == |old(space).lists| == NUM_INDEXES
      ensures arena == old(arena)[node := old(arena)[node].(word0 := old(freeList)[indx])]
      ensures space == Insert(old(space), node, indx)
    {
      hide Sound;
      InsertSound(space, node, indx);
      arena := arena[node := arena[node].(word0 := freeList[indx])];
      freeList := freeList[indx := node];
      space := Insert(space, node, indx);
    }

    method RemoveNode(indx: nat) returns (node: nat)
      requires Struct() && indx < NUM_INDEXES && indx < |freeList| && freeList[indx] != 0
      modifies `freeList, `space
      ensures Struct() && SameBounds()
      ensures indx < |old(space).lists| && old(space).lists[indx] != [] && old(space).freeList == old(freeList)
      ensures node == old(freeList)[indx] == old(space).lists[indx][0] && 0 < node < |arena|
      ensures node < |old(space).link| && space == Remove(old(space), indx)
      ensures node in space.loose && node !in old(space).loose && node !in space.live
      ensures node in space.tiles.size && space.tiles.size[node] == I2U(indx)
    {
      hide Sound;
      SoundBasics(space);
      RemoveSound(space, indx);
      node := freeList[indx];
      freeList := freeList[indx := arena[node].word0];
      space := Remove(space, indx);
    }

    /** Bookkeeping only: a loose block becomes two. */
    ghost method CutLoose(b: nat, k: nat)
      requires Struct() && b in space.loose && 0 < k < space.tiles.size[b]
      modifies `space
      ensures Struct() && b + k < |arena| && b + k !in old(space).tiles.size
      ensures space == old(space).(tiles := Cut(old(space).tiles, b, k), loose := old(space).loose + {b + k})
      ensures space.tiles.size[b] == k && space.tiles.size[b + k] == old(space).tiles.size[b] - k
      ensures KeptBut(old(space).tiles, space.tiles, b)
    {
      hide Sound;
      hide Tiled;
      SoundBasics(space);
      Owned(space.tiles, b, b + k);
      assert InArea(b + k);
      CutSound(space, b, k);
      CutTiled(space.tiles, b, k);
      space := space.(tiles := Cut(space.tiles, b, k), loose := space.loose + {b + k});
    }

    /** A loose block of at most 128 units goes to the list of its size, or is cut in two that do. */
    method InsertUnits(ptr: nat, nu: nat)
      requires Struct() && ptr in space.loose && nu == space.tiles.size[ptr] && 1 <= nu <= 128
      modifies `arena, `freeList, `space
      ensures Struct() && SameBounds()
      ensures space.lists == FiledLists(old(space).lists, ptr, nu) && Pieces(space.tiles, ptr, ptr + nu)
      ensures space.live == old(space).live && space.loose == old(space).loose - {ptr}
      ensures KeptBut(old(space).tiles, space.tiles, ptr) && ptr in space.tiles.size
      ensures forall u :: 0 <= u < |arena| && !(ptr <= u < ptr + nu) ==> arena[u] == old(arena)[u]
    {
      hide Sound;
      hide Tiled;
      hide U2I;
      hide I2U;
      hide Pieces;
      SoundBasics(space);
      var i := U2I(nu);
      SmallestClass(nu, 0);
      if I2U(i) != nu {
        SplitRemainder(nu);
        i := i - 1;
        var k := I2U(i);
        ClassOfOwnSize(i);
        CutLoose(ptr, k);
        InsertNode(ptr + k, nu - k - 1);
        SoundBasics(space);
        TwoPieces(space.tiles, ptr);
      } else {
        OnePiece(space.tiles, ptr);
      }
      InsertNode(ptr, i);
    }

    // ---------- gluing: collecting ----------

    /** While lists are collected: the free blocks met are chained in `chain`, the others wait in `queue`. */
    ghost predicate Collecting(chain: seq<nat>, queue: seq<nat>)
      reads `arena, `unitsStart, `loUnit, `hiUnit, `text, `space
    {
      && Sound(space) && NothingListed(space) && LinksOf(arena, space.link) && Laid() && Marked({})
      && NoDup(chain + queue) && (forall b :: CollectOk(b, chain, queue))
      && HalfRing(arena, chain + [|arena| - 1])
    }

    ghost predicate CollectOk(b: nat, chain: seq<nat>, queue: seq<nat>)
      reads `arena, `space
    {
      && (b in space.loose <==> b in chain || b in queue)
      && (b in space.loose ==> b < |arena| - 1 && b in space.tiles.size)
      && (b in chain ==> MetOk(b))
    }

    /** A free block met has stamp 0 and knows its size. */
    ghost predicate MetOk(b: nat)
      reads `arena, `space
    {
      && b < |arena| - 1 && b in space.tiles.size && space.tiles.size[b] < 0x1_0000
      && Stamp(arena[b].word0) == 0 && Nu(arena[b].word0) == space.tiles.size[b]
    }

    /** The list at `freeList[j]` is still the one in `lists`, with blocks of class `j`. */
    ghost predicate PendingAt(lists: seq<seq<nat>>, j: nat)
      reads `freeList, `space
    {
      j < NUM_INDEXES ==>
        && j < |freeList| && j < |lists| && Linked(space.link, freeList[j], lists[j])
        && forall x :: x in lists[j] ==> x in space.tiles.size && space.tiles.size[x] == I2U(j)
    }

    /** Points node `next` to node `n` and back, clears its stamp, and notes its size; `after` was its link. */
    method LinkFront(next: nat, n: nat, nu: nat) returns (after: nat)
      requires next < |arena| && n < |arena| && n != next && nu < 0x1_0000
      modifies `arena
      ensures |arena| == |old(arena)| && after == old(arena)[next].word0
      ensures Stamp(arena[next].word0) == 0 && Nu(arena[next].word0) == nu
      ensures forall u :: 0 <= u < |arena| ==>
                && arena[u].next == (if u == next then n else old(arena)[u].next)
                && arena[u].prev == (if u == n then next else old(arena)[u].prev)
                && (u != next ==> arena[u].word0 == old(arena)[u].word0)
    {
      hide Stamp;
      hide Nu;
      hide WithNu;
      hide WithStamp;
      arena := arena[next := arena[next].(next := n)];
      arena := arena[n := arena[n].(prev := next)];
      after := arena[next].word0;
      arena := arena[next := arena[next].(word0 := WithNu(WithStamp(after, 0), nu))];
    }

    /** Puts one free block at the front of the chain. */
    method Enlist(next: nat, n: nat, nu: nat, ghost chain: seq<nat>, ghost queue: seq<nat>) returns (after: nat)
      requires Collecting(chain, queue) && queue != [] && next == queue[0] && n == (chain + [|arena| - 1])[0]
      requires next in space.tiles.size && nu == space.tiles.size[next] <= 128
      modifies `arena, `space
      ensures Collecting([next] + chain, queue[1..]) && SameBounds()
      ensures next < |old(arena)| && after == old(arena)[next].word0
      ensures forall u :: 0 <= u < |arena| && u != next ==> arena[u].word0 == old(arena)[u].word0
      ensures space.live == old(space).live && space.tiles == old(space).tiles
      ensures LiveKept(old(space), old(arena), space, arena)
    {
      hide Sound;
      hide Tiled;
      hide Nu;
      hide Stamp;
      hide NoDup;
      hide HalfRing;
      SoundBasics(space);
      ghost var was, before := space, arena;
      assert CollectOk(next, chain, queue) && CollectOk(n, chain, queue) && CollectOk(|arena| - 1, chain, queue);
      NoDupPrefix(chain, queue);
      OwnStart(was.tiles, next);
      if n in was.tiles.size {
        OwnStart(was.tiles, n);
      }
      assert !InArea(|arena| - 1) && queue == [next] + queue[1..];
      assert n == |arena| - 1 || n == chain[0];
      after := LinkFront(next, n, nu);
      space := space.(link := space.link[next := arena[next].word0]);
      RelinkSound(was, next, arena[next].word0);
      forall b: nat ensures CollectOk(b, [next] + chain, queue[1..]) {
        assert old(CollectOk(b, chain, queue));
        assert b in chain && b != next ==> old(MetOk(b));
      }
      HalfRingCons(before, arena, chain, |arena| - 1, next);
      forall b: nat ensures UseOk(space, arena, {}, b) {
        assert UseOk(was, before, {}, b);
      }
      NoDupMove(chain, queue);
      forall u: nat ensures WriteOk(was, before, arena, u) {
        assert u == next || u == n ==> !(u in was.tiles.owner && was.tiles.owner[u] in was.live);
      }
      KeepsLive(was, before, space, arena);
    }

    ghost method StartCollecting(lists: seq<seq<nat>>)
      requires Valid({}) && lists == space.lists
      modifies `space
      ensures |lists| == NUM_INDEXES && Collecting([], Flat(lists, 0)) && (forall j :: PendingAt(lists, j))
      ensures space == Emptied(old(space)) && LiveKept(old(space), arena, space, arena)
    {
      hide Sound;
      hide Tiled;
      hide LiveKept;
      hide Flat;
      hide NoDup;
      SoundBasics(space);
      EmptiedSound(space);
      FlatNodes(space);
      ghost var was, queue := space, Flat(lists, 0);
      space := Emptied(space);
      KeepsLive(was, arena, space, arena);
      assert [] + queue == queue;
      forall b: nat ensures UseOk(space, arena, {}, b) {
        assert UseOk(was, arena, {}, b);
      }
      forall b: nat ensures CollectOk(b, [], queue) {
        if b in space.loose {
          OwnStart(was.tiles, b);
          assert InArea(b);
        }
      }
      forall j: nat ensures PendingAt(lists, j) {
        if j < NUM_INDEXES {
          ListAt(was, j);
          forall x | x in lists[j] ensures x in was.tiles.size && was.tiles.size[x] == I2U(j) {
            NodeAt(was, j, x);
          }
        }
      }
    }

    lemma QueueApart(chain: seq<nat>, queue: seq<nat>)
      requires Collecting(chain, queue)
      ensures Sound(space) && LinksOf(arena, space.link) && 0 < |arena|
      ensures queue != [] ==> queue[0] !in queue[1..]
    {
      hide Sound;
      hide Tiled;
      if queue != [] {
        assert NoDup(queue) by {
          forall j, k | 0 <= j < k < |queue| ensures queue[j] != queue[k] {
            assert (chain + queue)[|chain| + j] == queue[j] && (chain + queue)[|chain| + k] == queue[k];
          }
        }
        TailNoDup(queue);
      }
    }

    /** All nodes of one free list join the chain. */
    method CollectList(i: nat, first: nat, ghost lists: seq<seq<nat>>, ghost chain: seq<nat>)
      returns (n: nat, ghost chain': seq<nat>)
      requires i < NUM_INDEXES == |freeList| == |lists| && Collecting(chain, Flat(lists, i))
      requires first == (chain + [|arena| - 1])[0] && forall j :: i <= j ==> PendingAt(lists, j)
      modifies `arena, `freeList, `space
      ensures SameBounds() && Collecting(chain', Flat(lists, i + 1)) && n == (chain' + [|arena| - 1])[0]
      ensures forall j :: i + 1 <= j ==> PendingAt(lists, j)
      ensures freeList == old(freeList)[i := 0] && space.live == old(space).live
      ensures LiveKept(old(space), old(arena), space, arena)
    {
      hide Sound;
      hide Tiled;
      hide LiveKept;
      hide Collecting;
      assert PendingAt(lists, i);
      QueueApart(chain, Flat(lists, i));
      var nu := I2U(i);
      ClassOfOwnSize(i);
      var next := freeList[i];
      freeList := freeList[i := 0];
      ghost var rest, tail := lists[i], Flat(lists, i + 1);
      n, chain' := first, chain;
      LiveKeptSelf(space, arena);
      forall j: nat ensures i + 1 <= j ==> PendingAt(lists, j) {
        assert i <= j ==> old(PendingAt(lists, j));
      }
      while next != 0
        invariant SameBounds() && Collecting(chain', rest + tail) && n == (chain' + [|arena| - 1])[0]
        invariant Linked(space.link, next, rest) && freeList == old(freeList)[i := 0]
        invariant forall x :: x in rest ==> x in space.tiles.size && space.tiles.size[x] == nu
        invariant forall j :: i + 1 <= j ==> PendingAt(lists, j)
        invariant space.live == old(space).live && LiveKept(old(space), old(arena), space, arena)
        decreases |rest|
      {
        ghost var was, before, queue := space, arena, rest + tail;
        assert next == queue[0] && queue[1..] == rest[1..] + tail;
        QueueApart(chain', queue);
        label Before:
        var after := Enlist(next, n, nu, chain', queue);
        LiveKeptTrans(old(space), old(arena), was, before, space, arena);
        QueueApart([next] + chain', queue[1..]);
        LinkedOther(was.link, space.link, was.link[next], rest[1..], next);
        forall j: nat ensures i + 1 <= j ==> PendingAt(lists, j) {
          if i + 1 <= j < NUM_INDEXES {
            assert old@Before(PendingAt(lists, j));
            FlatMembers(lists, i + 1);
            LinkedOther(was.link, space.link, freeList[j], lists[j], next);
          }
        }
        n, chain', next := next, [next] + chain', after;
        rest := rest[1..];
      }
      assert rest + tail == tail;
    }

    // ---------- gluing: joining ----------

    /** While neighbours are joined: the ring holds exactly the loose blocks, each with its size. */
    ghost predicate Glued(chain: seq<nat>)
      reads `arena, `unitsStart, `loUnit, `hiUnit, `text, `space
    {
      && Sound(space) && NothingListed(space) && LinksOf(arena, space.link) && Laid() && Marked({})
      && NoDup(chain) && (forall b :: ChainOk(b, chain)) && Ring(arena, |arena| - 1, chain)
      && Stamp(arena[|arena| - 1].word0) != 0 && (loUnit != hiUnit ==> Stamp(arena[loUnit].word0) != 0)
    }

    ghost predicate ChainOk(b: nat, chain: seq<nat>)
      reads `arena, `space
    {
      (b in space.loose <==> b in chain) && (b in chain ==> MetOk(b))
    }

    /** First part of GlueFreeBlocks: empties the lists, and closes the ring of the blocks that were on them. */
    method CollectFree() returns (n: nat, ghost chain: seq<nat>)
      requires Valid({})
      modifies `arena, `freeList, `glueCount, `space
      ensures Glued(chain) && n == (chain + [|arena| - 1])[0] && glueCount == 255
      ensures freeList == seq(NUM_INDEXES, _ => 0)
      ensures |arena| == |old(arena)| && space.live == old(space).live
      ensures LiveKept(old(space), old(arena), space, arena)
    {
      hide Sound;
      hide Tiled;
      hide LiveKept;
      hide Collecting;
      hide Flat;
      hide Linked;
      SoundBasics(space);
      glueCount := 255;
      ghost var lists := space.lists;
      StartCollecting(lists);
      n, chain := |arena| - 1, [];
      var i := 0;
      while i < NUM_INDEXES
        invariant i <= NUM_INDEXES == |lists| == |freeList| && Collecting(chain, Flat(lists, i))
        invariant n == (chain + [|arena| - 1])[0] && (forall j :: i <= j ==> PendingAt(lists, j))
        invariant forall j :: 0 <= j < i ==> freeList[j] == 0
        invariant glueCount == 255 && |arena| == |old(arena)| && space.live == old(space).live
        invariant LiveKept(old(space), old(arena), space, arena)
      {
        ghost var was, before := space, arena;
        n, chain := CollectList(i, n, lists, chain);
        LiveKeptTrans(old(space), old(arena), was, before, space, arena);
        i := i + 1;
      }
      EmptyFlat(lists);
      ghost var was, before := space, arena;
      CloseRing(n, chain);
      LiveKeptTrans(old(space), old(arena), was, before, space, arena);
    }

    /** The head of the ring points to node `n` and back; it and the start of the gap get a stamp that is not 0. */
    method CloseEnds(n: nat)
      requires n < |arena| && loUnit < |arena|
      modifies `arena
      ensures |arena| == |old(arena)| && Stamp(arena[|arena| - 1].word0) != 0
      ensures loUnit != hiUnit ==> Stamp(arena[loUnit].word0) != 0
      ensures forall u :: 0 <= u < |arena| ==>
                && arena[u].next == (if u == |arena| - 1 then n else old(arena)[u].next)
                && arena[u].prev == (if u == n then |arena| - 1 else old(arena)[u].prev)
                && (u != |arena| - 1 && (loUnit == hiUnit || u != loUnit) ==> arena[u].word0 == old(arena)[u].word0)
    {
      hide Stamp;
      hide WithStamp;
      arena := arena[|arena| - 1 := arena[|arena| - 1].(word0 := WithStamp(arena[|arena| - 1].word0, 1))];
      arena := arena[|arena| - 1 := arena[|arena| - 1].(next := n)];
      arena := arena[n := arena[n].(prev := |arena| - 1)];
      if loUnit != hiUnit {
        arena := arena[loUnit := arena[loUnit].(word0 := WithStamp(arena[loUnit].word0, 1))];
      }
    }

    /** The cell behind the units heads the ring, and, like the start of the gap, stops every run of free blocks. */
    method CloseRing(n: nat, ghost chain: seq<nat>)
      requires Collecting(chain, []) && n == (chain + [|arena| - 1])[0]
      modifies `arena, `space
      ensures Glued(chain) && SameBounds() && space.live == old(space).live
      ensures LiveKept(old(space), old(arena), space, arena)
    {
      hide Sound;
      hide Tiled;
      hide LiveKept;
      hide Nu;
      hide Stamp;
      hide WithStamp;
      hide Ring;
      hide NoDup;
      SoundBasics(space);
      ghost var was, before, head := space, arena, |arena| - 1;
      assert CollectOk(n, chain, []) && CollectOk(head, chain, []);
      assert n == head || n == chain[0];
      CloseEnds(n);
      space := space.(link := seq(|arena|, u requires 0 <= u < |arena| reads this => arena[u].word0));
      RelinkAll(was, space.link);
      assert chain + [] == chain;
      RingCloses(before, arena, head, chain);
      assert !InArea(head) && (loUnit != hiUnit ==> !InArea(loUnit));
      forall b: nat ensures ChainOk(b, chain) {
        assert old(CollectOk(b, chain, []));
        assert b in chain ==> old(MetOk(b));
        if b in was.tiles.size {
          OwnStart(was.tiles, b);
        }
      }
      forall b: nat ensures UseOk(space, arena, {}, b) {
        assert UseOk(was, before, {}, b);
        if b in was.tiles.size {
          OwnStart(was.tiles, b);
        }
      }
      CloseKeeps(was, before, space, arena, n);
    }

    /** Cells outside the area and one free block do not matter to the blocks in use. */
    lemma CloseKeeps(was: Space, before: seq<Cell>, r: Space, now: seq<Cell>, n: nat)
      requires Tiled(was.tiles) && was.live <= was.tiles.size.Keys && was.live !! was.loose
      requires r.tiles == was.tiles && r.live == was.live && |now| == |before|
      requires n in was.tiles.owner ==> n in was.loose && n in was.tiles.size
      requires forall u :: 0 <= u < |now| && u != n && u in was.tiles.owner ==> now[u] == before[u]
      ensures LiveKept(was, before, r, now)
    {
      hide Tiled;
      hide LiveKept;
      forall u: nat ensures WriteOk(was, before, now, u) {
        if n in was.tiles.size {
          OwnStart(was.tiles, n);
        }
      }
      KeepsLive(was, before, r, now);
    }

    /** What follows a loose block: a block, the guarded start of the gap, or the guarded end. */
    lemma Behind(x: nat)
      requires Sound(space) && Laid() && x in space.loose
      ensures x in space.tiles.size && 0 < space.tiles.size[x] && x + space.tiles.size[x] < |arena|
      ensures var n := x + space.tiles.size[x];
              n in space.tiles.size || (n == loUnit && loUnit != hiUnit) || n == |arena| - 1
    {
      hide Sound;
      hide Tiled;
      SoundBasics(space);
      var t := space.tiles;
      OwnStart(t, x);
      assert InArea(x);
      var n := x + t.size[x];
      Owned(t, x, n - 1);
      assert InArea(n - 1);
      if InArea(n) {
        NextBlock(t, x);
      }
    }

    /** The neighbours of a node in the ring are pointed at each other. */
    method Unring(node2: nat, ghost chain: seq<nat>, ghost k: nat)
      requires 0 < |arena| && Ring(arena, |arena| - 1, chain) && NoDup(chain) && |arena| - 1 !in chain
      requires k < |chain| && chain[k] == node2
      modifies `arena
      ensures SameBounds() && Ring(arena, |arena| - 1, Deleted(chain, k))
      ensures forall u :: 0 <= u < |arena| ==> arena[u].word0 == old(arena)[u].word0
      ensures forall u :: 0 <= u < |arena| && u != |arena| - 1 && u !in chain ==> arena[u] == old(arena)[u]
    {
      RingDelete(arena, |arena| - 1, chain, k);
      RingBounds(arena, |arena| - 1, chain, k);
      var p, q := arena[node2].prev, arena[node2].next;
      arena := arena[p := arena[p].(next := q)];
      arena := arena[q := arena[q].(prev := p)];
    }

    /** Node `node2` leaves the ring, and node `n` gets the size of both. */
    method Swallow(n: nat, node2: nat, nu: nat, ghost chain: seq<nat>, ghost k2: nat)
      requires 0 < |arena| && Ring(arena, |arena| - 1, chain) && NoDup(chain) && |arena| - 1 !in chain
      requires k2 < |chain| && chain[k2] == node2 && n < |arena| && n in chain && nu < 0x1_0000
      modifies `arena
      ensures SameBounds() && Ring(arena, |arena| - 1, Deleted(chain, k2))
      ensures Stamp(arena[n].word0) == Stamp(old(arena)[n].word0) && Nu(arena[n].word0) == nu
      ensures forall u :: 0 <= u < |arena| && u != n ==> arena[u].word0 == old(arena)[u].word0
      ensures forall u :: 0 <= u < |arena| && u != |arena| - 1 && u !in chain ==> arena[u] == old(arena)[u]
    {
      hide Ring;
      hide Nu;
      hide Stamp;
      hide WithNu;
      hide Deleted;
      hide NoDup;
      Unring(node2, chain, k2);
      ghost var unlinked := arena;
      arena := arena[n := arena[n].(word0 := WithNu(arena[n].word0, nu))];
      RingSame(unlinked, arena, |arena| - 1, Deleted(chain, k2));
    }

    lemma ChainFacts(chain: seq<nat>)
      requires Glued(chain)
      ensures 0 < |arena| && NoDup(chain) && |arena| - 1 !in chain
      ensures forall b :: b in space.loose <==> b in chain
      ensures forall b :: b in chain ==> b < |arena| - 1 && b in space.tiles.size && space.tiles.size[b] < 0x1_0000
      ensures forall b :: b in chain ==> Stamp(arena[b].word0) == 0 && Nu(arena[b].word0) == space.tiles.size[b]
    {
      hide Sound;
      hide Ring;
      hide Nu;
      hide Stamp;
      forall b: nat ensures (b in space.loose <==> b in chain) && (b in chain ==> MetOk(b)) {
        assert ChainOk(b, chain);
      }
    }

    /** One free block joins the one before it, and leaves the ring. */
    method JoinNext(n: nat, node2: nat, nu: nat, ghost chain: seq<nat>, ghost k: nat)
      returns (ghost chain': seq<nat>, ghost k': nat)
      requires Glued(chain) && k < |chain| && chain[k] == n && n in space.tiles.size && node2 in space.loose
      requires node2 == n + space.tiles.size[n] && node2 in space.tiles.size && n != node2
      requires nu == space.tiles.size[n] + space.tiles.size[node2] < 0x1_0000
      modifies `arena, `space
      ensures Glued(chain') && SameBounds() && k' < |chain'| && chain'[k'] == n && |chain'| - k' <= |chain| - k
      ensures n in space.tiles.size && space.tiles.size[n] == nu && space.loose == old(space).loose - {node2}
      ensures space.tiles == Join(old(space).tiles, n) && forall j :: 0 <= j < k' ==> chain'[j] in chain[..k]
      ensures space.live == old(space).live && LiveKept(old(space), old(arena), space, arena)
    {
      hide Sound;
      hide Tiled;
      hide LiveKept;
      hide Ring;
      hide Nu;
      hide Stamp;
      hide Deleted;
      hide NoDup;
      ghost var before := arena;
      ChainFacts(chain);
      ghost var k2: nat :| k2 < |chain| && chain[k2] == node2;
      DeletedMembers(chain, k2);
      chain' := Deleted(chain, k2);
      k' := if k2 < k then k - 1 else k;
      DeletedPrefix(chain, k2, k);
      DeletedAt(chain, k2, k);
      Swallow(n, node2, nu, chain, k2);
      Rejoin(before, n, node2, chain, chain');
    }

    /** Bookkeeping only: the two blocks are one. */
    ghost method Rejoin(before: seq<Cell>, n: nat, node2: nat, chain: seq<nat>, chain': seq<nat>)
      requires Sound(space) && NothingListed(space) && LinksOf(before, space.link) && Laid() && 0 < |arena| == |before|
      requires (forall b :: UseOk(space, before, {}, b)) && Stamp(before[|arena| - 1].word0) != 0
      requires loUnit != hiUnit ==> Stamp(before[loUnit].word0) != 0
      requires Ring(arena, |arena| - 1, chain') && NoDup(chain')
      requires forall b :: (b in space.loose <==> b in chain) && (b in chain' <==> b in chain && b != node2)
      requires forall b :: b in chain ==> b < |arena| - 1 && b in space.tiles.size && space.tiles.size[b] < 0x1_0000
      requires forall b :: b in chain ==> Stamp(before[b].word0) == 0 && Nu(before[b].word0) == space.tiles.size[b]
      requires n in chain && node2 in chain && n != node2 && node2 == n + space.tiles.size[n]
      requires space.tiles.size[n] + space.tiles.size[node2] < 0x1_0000
      requires forall u :: 0 <= u < |arena| && u != n ==> arena[u].word0 == before[u].word0
      requires forall u :: 0 <= u < |arena| && u != |arena| - 1 && u !in chain ==> arena[u] == before[u]
      requires Stamp(arena[n].word0) == 0 && Nu(arena[n].word0) == space.tiles.size[n] + space.tiles.size[node2]
      modifies `space
      ensures Glued(chain') && space.live == old(space).live && space.loose == old(space).loose - {node2}
      ensures space.tiles == Join(old(space).tiles, n)
      ensures n in space.tiles.size && space.tiles.size[n] == old(space).tiles.size[n] + old(space).tiles.size[node2]
      ensures LiveKept(old(space), before, space, arena)
    {
      hide Sound;
      hide Tiled;
      hide LiveKept;
      hide Ring;
      hide Nu;
      hide Stamp;
      hide NoDup;
      SoundBasics(space);
      ghost var was := space;
      assert !InArea(|arena| - 1) && (loUnit != hiUnit ==> !InArea(loUnit));
      OwnStart(was.tiles, n);
      JoinSound(space, n);
      JoinTiled(space.tiles, n);
      ghost var joined := was.(tiles := Join(was.tiles, n), loose := was.loose - {node2});
      space := joined.(link := space.link[n := arena[n].word0]);
      RelinkAll(joined, space.link);
      JoinedOk(was, before, n, node2, chain, chain');
      RingKeepsLive(was, before, space, arena, |arena| - 1, chain);
    }

    /** The marks of the remaining blocks after a join. */
    lemma JoinedOk(s: Space, a: seq<Cell>, n: nat, node2: nat, chain: seq<nat>, chain': seq<nat>)
      requires Tiled(s.tiles) && n in s.tiles.size && n + s.tiles.size[n] == node2 && node2 in s.tiles.size && n != node2
      requires n in s.loose && n in chain && space.tiles == Join(s.tiles, n) && space.loose == s.loose - {node2}
      requires s.live == space.live && (forall b :: UseOk(s, a, {}, b)) && |arena| == |a| > 0 && s.live !! s.loose
      requires forall b :: (b in s.loose <==> b in chain) && (b in chain' <==> b in chain && b != node2)
      requires forall b :: b in chain ==> b < |a| - 1 && b in s.tiles.size && s.tiles.size[b] < 0x1_0000
      requires forall b :: b in chain ==> Stamp(a[b].word0) == 0 && Nu(a[b].word0) == s.tiles.size[b]
      requires s.tiles.size[n] + s.tiles.size[node2] < 0x1_0000 && n < |a|
      requires forall u :: 0 <= u < |a| && u != n ==> arena[u].word0 == a[u].word0
      requires Stamp(arena[n].word0) == 0 && Nu(arena[n].word0) == s.tiles.size[n] + s.tiles.size[node2]
      ensures Marked({}) && forall b :: ChainOk(b, chain')
    {
      hide Tiled;
      hide Nu;
      hide Stamp;
      forall b: nat ensures ChainOk(b, chain') {
      }
      forall b: nat ensures UseOk(space, arena, {}, b) {
        assert UseOk(s, a, {}, b);
      }
    }

    /** What is behind the blocks met is not free, or too large to be joined: sizes have 16 bits. */
    ghost predicate Settled(met: set<nat>)
      reads `space
    {
      forall b :: b in met ==> EndOk(space, 0x1_0000, b)
    }

    /** Swallows the free blocks right behind node `k` of the ring, as long as the size fits its 16 bits. */
    method Absorb(n: nat, ghost chain: seq<nat>, ghost k: nat, ghost met: set<nat>)
      returns (ghost chain': seq<nat>, ghost k': nat)
      requires Glued(chain) && k < |chain| && chain[k] == n < |arena| && Settled(met - {n})
      modifies `arena, `space
      ensures Glued(chain') && SameBounds() && k' < |chain'| && chain'[k'] == n && |chain'| - k' <= |chain| - k
      ensures Settled(met + {n}) && forall j :: 0 <= j < k' ==> chain'[j] in chain[..k]
      ensures space.live == old(space).live && LiveKept(old(space), old(arena), space, arena)
    {
      hide Sound;
      hide LiveKept;
      hide Glued;
      hide Settled;
      hide EndOk;
      hide Nu;
      hide Stamp;
      hide Tiled;
      chain', k' := chain, k;
      AtNode(n, chain);
      LiveKeptSelf(space, arena);
      assert forall j :: 0 <= j < k ==> chain[..k][j] == chain[j];
      var nu := Nu(arena[n].word0);
      while true
        invariant Glued(chain') && SameBounds() && k' < |chain'| && chain'[k'] == n && |chain'| - k' <= |chain| - k
        invariant n in space.tiles.size && nu == space.tiles.size[n] && n in space.loose
        invariant Settled(met - {n}) && forall j :: 0 <= j < k' ==> chain'[j] in chain[..k]
        invariant space.live == old(space).live && LiveKept(old(space), old(arena), space, arena)
        decreases |space.loose|
      {
        AtNode(n, chain');
        var node2 := n + nu;
        nu := nu + Nu(arena[node2].word0);
        if Stamp(arena[node2].word0) != 0 || nu >= 0x1_0000 {
          StopsAt(n, chain', met);
          break;
        }
        GoesOn(n, chain');
        ghost var was, before, met', kk := space, arena, chain', k';
        IsSettled(met - {n});
        chain', k' := JoinNext(n, node2, nu, chain', k');
        Shorter(chain[..k], met', kk, chain', k');
        StillSettled(was, n, met - {n});
        LiveKeptTrans(old(space), old(arena), was, before, space, arena);
        AtNode(n, chain');
      }
    }

    lemma AtNode(n: nat, chain: seq<nat>)
      requires Glued(chain) && n in chain
      ensures Sound(space) && Tiled(space.tiles) && n in space.loose && n in space.tiles.size && n < |arena|
      ensures Nu(arena[n].word0) == space.tiles.size[n] > 0 && n + space.tiles.size[n] < |arena|
    {
      hide Sound;
      hide Tiled;
      hide Nu;
      hide Stamp;
      ChainFacts(chain);
      Behind(n);
      SoundBasics(space);
    }

    /** Where the loop ends, nothing free is behind the node, or too much of it. */
    lemma StopsAt(n: nat, chain: seq<nat>, met: set<nat>)
      requires Glued(chain) && n in chain && Settled(met - {n}) && n in space.tiles.size && n + space.tiles.size[n] < |arena|
      requires var m := n + space.tiles.size[n];
               Stamp(arena[m].word0) != 0 || space.tiles.size[n] + Nu(arena[m].word0) >= 0x1_0000
      ensures Settled(met + {n})
    {
      hide Sound;
      hide Nu;
      hide Stamp;
      ChainFacts(chain);
      hide Glued;
      assert EndOk(space, 0x1_0000, n);
    }

    /** An empty mark behind a node is that of another free block. */
    lemma GoesOn(n: nat, chain: seq<nat>)
      requires Glued(chain) && n in chain && n in space.tiles.size && n + space.tiles.size[n] < |arena|
      requires Stamp(arena[n + space.tiles.size[n]].word0) == 0
      ensures var m := n + space.tiles.size[n];
              m in space.loose && m in space.tiles.size && Nu(arena[m].word0) == space.tiles.size[m] && n != m
    {
      hide Sound;
      hide Ring;
      hide Tiled;
      hide Nu;
      hide Stamp;
      ChainFacts(chain);
      Behind(n);
      var m := n + space.tiles.size[n];
      assert UseOk(space, arena, {}, m);
      AreLoose(m);
    }

    lemma IsSettled(met: set<nat>)
      requires Settled(met)
      ensures forall b :: b in met ==> EndOk(space, 0x1_0000, b)
    {
      hide EndOk;
    }

    lemma StillSettled(was: Space, n: nat, met: set<nat>)
      requires Tiled(was.tiles) && n in was.tiles.size && n + was.tiles.size[n] in was.tiles.size && n !in met
      requires space.tiles == Join(was.tiles, n) && space.loose == was.loose - {n + was.tiles.size[n]}
      requires forall b :: b in met ==> EndOk(was, 0x1_0000, b)
      ensures Settled(met)
    {
      hide Tiled;
      hide EndOk;
      JoinedAll(was, space, n, 0x1_0000, met);
    }

    lemma Shorter(first: seq<nat>, chain: seq<nat>, k: nat, chain': seq<nat>, k': nat)
      requires k <= |chain| && k' <= |chain'| && (forall j :: 0 <= j < k ==> chain[j] in first)
      requires forall j :: 0 <= j < k' ==> chain'[j] in chain[..k]
      ensures forall j :: 0 <= j < k' ==> chain'[j] in first
    {
    }

    lemma AreLoose(b: nat)
      requires Sound(space) && NothingListed(space) && b in space.tiles.size && b !in space.live
      ensures b in space.loose
    {
    }

    /** Second part of GlueFreeBlocks: every block of the ring swallows its free successors. */
    method JoinAll(first: nat, ghost chain: seq<nat>) returns (ghost chain': seq<nat>)
      requires Glued(chain) && first == (chain + [|arena| - 1])[0]
      modifies `arena, `space
      ensures Glued(chain') && SameBounds() && forall b :: EndOk(space, 0x1_0000, b)
      ensures space.live == old(space).live && LiveKept(old(space), old(arena), space, arena)
    {
      hide Sound;
      hide LiveKept;
      hide Glued;
      hide EndOk;
      chain' := chain;
      var n := first;
      ghost var k: nat := 0;
      ghost var met: set<nat> := {};
      GluedFacts(chain);
      LiveKeptSelf(space, arena);
      while n != |arena| - 1
        invariant Glued(chain') && SameBounds() && 0 < |arena|
        invariant k <= |chain'| && n == (chain' + [|arena| - 1])[k]
        invariant Settled(met) && forall j :: 0 <= j < k ==> chain'[j] in met
        invariant space.live == old(space).live && LiveKept(old(space), old(arena), space, arena)
        decreases |chain'| - k
      {
        ghost var was, before, all := space, arena, chain'[..k];
        GluedNode(chain', k);
        chain', k := Absorb(n, chain', k, met);
        LiveKeptTrans(old(space), old(arena), was, before, space, arena);
        GluedNode(chain', k);
        assert forall x :: x in all ==> x in met;
        met := met + {n};
        n := arena[n].next;
        k := k + 1;
      }
      GluedEnds(chain', k, met);
    }

    /** At the head of the ring all of it has been met. */
    lemma GluedEnds(chain: seq<nat>, k: nat, met: set<nat>)
      requires Glued(chain) && k <= |chain| && (chain + [|arena| - 1])[k] == |arena| - 1 && Settled(met)
      requires forall j :: 0 <= j < k ==> chain[j] in met
      ensures forall b :: EndOk(space, 0x1_0000, b)
    {
      hide Sound;
      hide Ring;
      if k < |chain| {
        GluedNode(chain, k);
      }
      forall b: nat ensures EndOk(space, 0x1_0000, b) {
        assert ChainOk(b, chain);
        if b in chain {
          var j :| 0 <= j < |chain| && chain[j] == b;
        }
      }
    }

    lemma GluedFacts(chain: seq<nat>)
      requires Glued(chain)
      ensures Sound(space) && 0 < |arena|
    {
    }

    lemma GluedNode(chain: seq<nat>, k: nat)
      requires Glued(chain) && k < |chain|
      ensures chain[k] < |arena| - 1 && arena[chain[k]].next == (chain + [|arena| - 1])[k + 1]
    {
      hide Sound;
      assert ChainOk(chain[k], chain);
      RingBounds(arena, |arena| - 1, chain, k);
    }

    // ---------- gluing: filing ----------

    /** The chain still to be filed: from `n` through exactly the loose blocks to the head of the ring. */
    ghost predicate Filing(n: nat, chain: seq<nat>)
      reads `arena, `space
    {
      && 0 < |arena| && NoDup(chain) && (forall b :: ChainOk(b, chain))
      && n == (chain + [|arena| - 1])[0] && Forward(arena, chain + [|arena| - 1])
    }

    lemma StartFiling(chain: seq<nat>)
      requires Glued(chain)
      ensures |arena| > 0 && Filing(arena[|arena| - 1].next, chain) && Sound(space) && Laid() && Marked({})
      ensures LinksOf(arena, space.link) && NothingListed(space)
    {
      hide Sound;
      var h := |arena| - 1;
      var f, g := chain + [h], Around(h, chain);
      assert g == [h] + f;
      assert RingAt(arena, g, 0);
      forall j: nat ensures NextAt(arena, f, j) {
        assert RingAt(arena, g, j + 1);
      }
    }

    /** A piece of 128 units goes to the last list; the others are still to be filed. */
    method FileRow(p: nat, nu: nat)
      requires Struct() && p in space.loose && p < |arena| && p in space.tiles.size && space.tiles.size[p] == nu > 128
      modifies `arena, `freeList, `space
      ensures Struct() && SameBounds() && FiledLists(space.lists, p + 128, nu - 128) == FiledLists(old(space).lists, p, nu)
      ensures space.live == old(space).live && space.loose == old(space).loose - {p} + {p + 128}
      ensures KeptBut(old(space).tiles, space.tiles, p) && p in space.tiles.size && space.tiles.size[p] == 128
      ensures p + 128 in space.tiles.size && space.tiles.size[p + 128] == nu - 128 && p + 128 < |arena|
      ensures p + 128 !in old(space).tiles.size
      ensures forall u :: 0 <= u < |arena| && u != p ==> arena[u] == old(arena)[u]
    {
      hide Sound;
      hide Tiled;
      SoundBasics(space);
      CutLoose(p, 128);
      InsertNode(p, NUM_INDEXES - 1);
      SoundBasics(space);
    }

    /** Puts a glued block on the lists, in pieces of 128 units and a remainder. */
    method FileBlock(node: nat)
      requires Struct() && node in space.loose && node < |arena| && MetOk(node) && 1 <= space.tiles.size[node]
      modifies `arena, `freeList, `space
      ensures Struct() && SameBounds()
      ensures space.lists == FiledLists(old(space).lists, node, old(space).tiles.size[node])
      ensures Pieces(space.tiles, node, node + old(space).tiles.size[node])
      ensures space.live == old(space).live && space.loose == old(space).loose - {node}
      ensures KeptBut(old(space).tiles, space.tiles, node)
      ensures forall u :: 0 <= u < |arena| && !(node <= u < node + old(space).tiles.size[node]) ==>
                arena[u] == old(arena)[u]
    {
      hide Sound;
      hide Tiled;
      hide Pieces;
      hide Rows;
      hide FiledLists;
      hide Nu;
      hide Stamp;
      SoundBasics(space);
      var p, nu := node, Nu(arena[node].word0);
      NoRows(space.tiles, node);
      while nu > 128
        invariant 1 <= nu && node <= p < |arena| && p + nu == node + old(space).tiles.size[node]
        invariant Struct() && SameBounds() && Rows(space.tiles, node, p)
        invariant FiledLists(space.lists, p, nu) == FiledLists(old(space).lists, node, old(space).tiles.size[node])
        invariant space.live == old(space).live && space.loose == old(space).loose - {node} + {p}
        invariant KeptBut(old(space).tiles, space.tiles, node) && p in space.tiles.size && space.tiles.size[p] == nu
        invariant p == node || (p !in old(space).tiles.size && p !in old(space).loose)
        invariant forall u :: 0 <= u < |arena| && !(node <= u < p) ==> arena[u] == old(arena)[u]
      {
        ghost var t := space.tiles;
        SoundBasics(space);
        FileRow(p, nu);
        SoundBasics(space);
        NextRow(t, space.tiles, node, p);
        p, nu := p + 128, nu - 128;
      }
      ghost var t := space.tiles;
      SoundBasics(space);
      InsertUnits(p, nu);
      SoundBasics(space);
      RowsAndPieces(t, space.tiles, node, p, p + nu);
    }

    /** Files the first block of the chain. */
    method FileNext(node: nat, ghost chain: seq<nat>) returns (next: nat)
      requires Struct() && Marked({}) && Filing(node, chain) && chain != []
      modifies `arena, `freeList, `space
      ensures old(Tidy(space, 0x1_0000)) ==> Tidy(space, 0x1_0000)
      ensures Struct() && Marked({}) && SameBounds() && Filing(next, chain[1..])
      ensures space.live == old(space).live && LiveKept(old(space), old(arena), space, arena)
    {
      hide Sound;
      hide Tiled;
      hide Tidy;
      hide Pieces;
      hide FiledLists;
      hide Nu;
      hide Stamp;
      SoundBasics(space);
      ghost var was, before, h := space, arena, |arena| - 1;
      ghost var f := chain + [h];
      assert ChainOk(node, chain) && NextAt(arena, f, 0);
      OwnStart(space.tiles, node);
      next := arena[node].next;
      FileBlock(node);
      if Tidy(was, 0x1_0000) {
        FiledTidy(was, space, 0x1_0000, node);
      }
      forall u: nat ensures WriteOk(was, before, arena, u) {
        Owned(was.tiles, node, u);
      }
      KeepsLive(was, before, space, arena);
      forall b: nat ensures UseOk(space, arena, {}, b) {
        assert UseOk(was, before, {}, b) && LiveBlockKept(was, before, space, arena, b);
        if b in was.live {
          OwnStart(was.tiles, b);
        }
      }
      HeadAndTail(chain);
      TailNoDup(chain);
      forall b: nat | b in chain[1..] ensures b < |arena| - 1 && before[b] == arena[b] && old(MetOk(b)) && b in was.loose {
        assert old(ChainOk(b, chain));
        if node < b {
          BlocksDisjoint(was.tiles, node, b);
        }
      }
      forall b: nat ensures ChainOk(b, chain[1..]) {
        assert old(ChainOk(b, chain));
      }
      ghost var g := chain[1..] + [h];
      assert g == f[1..];
      forall j: nat ensures NextAt(arena, g, j) {
        assert NextAt(before, f, j + 1);
        assert j < |chain[1..]| ==> chain[1..][j] in chain[1..];
      }
    }

    lemma NotEmpty(n: nat, chain: seq<nat>)
      requires Filing(n, chain) && n != |arena| - 1
      ensures chain != []
    {
    }

    lemma NothingLeft(n: nat, chain: seq<nat>)
      requires Filing(n, chain) && n == |arena| - 1
      ensures space.loose == {}
    {
      assert chain != [] ==> n in chain;
      assert ChainOk(n, chain);
      forall b: nat ensures b !in space.loose {
        assert ChainOk(b, chain);
      }
    }

    lemma GluedTidy(chain: seq<nat>)
      requires Glued(chain) && forall b :: EndOk(space, 0x1_0000, b)
      ensures Tidy(space, 0x1_0000)
    {
      hide Sound;
      hide Ring;
      StartTidy(space, 0x1_0000);
    }

    lemma FiledRuns()
      requires Tidy(space, 0x1_0000) && space.loose == {}
      ensures forall b :: RunOk(space, 0x1_0000, b)
    {
      forall b: nat ensures RunOk(space, 0x1_0000, b) {
        assert TidyAt(space, 0x1_0000, b);
      }
    }

    /**
      Joins free neighbours and files the results. It ends, changes neither what is in use nor what is free, and leaves no
      three free blocks in a row unless the first one has 128 units or the free units there reach 2^16.
     */
    method GlueFreeBlocks()
      requires Valid({})
      modifies `arena, `freeList, `glueCount, `space
      ensures forall b :: RunOk(space, 0x1_0000, b)
      ensures Valid({}) && glueCount == 255 && |arena| == |old(arena)|
      ensures space.live == old(space).live && LiveKept(old(space), old(arena), space, arena)
      ensures Unused(space) == Unused(old(space))
    {
      hide Sound;
      hide Glued;
      hide LiveKept;
      hide Filing;
      hide Tidy;
      hide EndOk;
      var n;
      ghost var chain;
      n, chain := CollectFree();
      ghost var was, before := space, arena;
      chain := JoinAll(n, chain);
      LiveKeptTrans(old(space), old(arena), was, before, space, arena);
      StartFiling(chain);
      GluedTidy(chain);
      n := arena[|arena| - 1].next;
      SoundBasics(space);
      while n != |arena| - 1
        invariant Struct() && Marked({}) && Filing(n, chain) && Tidy(space, 0x1_0000)
        invariant glueCount == 255 && |arena| == |old(arena)| > 0 && space.live == old(space).live
        invariant LiveKept(old(space), old(arena), space, arena)
        decreases |chain|
      {
        was, before := space, arena;
        NotEmpty(n, chain);
        n := FileNext(n, chain);
        LiveKeptTrans(old(space), old(arena), was, before, space, arena);
        chain := chain[1..];
      }
      NothingLeft(n, chain);
      FiledRuns();
      SameUnused(old(space), old(arena), space, arena);
    }

    // ---------- taking blocks ----------

    /** What an operation establishes that keeps all blocks in use and adds those in `more`. */
    twostate lemma StaysValid(more: set<nat>)
      requires old(Valid({})) && Struct() && space.loose == {} && |arena| == |old(arena)|
      requires space.live == old(space).live + more && LiveKept(old(space), old(arena), space, arena)
      ensures Valid(more)
    {
      hide Sound;
      SoundBasics(old(space));
      SoundBasics(space);
      MarksKept(old(space), old(arena), space, arena, {}, more);
      assert {} + more == more;
    }

    /** The same when the blocks in `gone` are given up, and those in `but` were not yet written. */
    lemma LosesAndGains(s: Space, a: seq<Cell>, but: set<nat>, gone: set<nat>, more: set<nat>)
      requires Sound(s) && (forall b :: UseOk(s, a, but, b)) && |a| == |arena| > 0 && Struct()
      requires space.loose == {} && space.live == s.live - gone + more
      requires LiveKept(Without(s, gone), a, space, arena)
      ensures Valid(but - gone + more)
    {
      hide Sound;
      SoundBasics(s);
      SoundBasics(space);
      ghost var r := Without(s, gone);
      forall b: nat ensures UseOk(r, a, but, b) {
        assert UseOk(s, a, but, b);
      }
      MarksKept(r, a, space, arena, but, more);
      forall b: nat ensures UseOk(space, arena, but - gone + more, b) {
        assert UseOk(space, arena, but + more, b);
      }
    }

    /** A block of `nu` units was found for the caller, or (when `node` is null) none was. */
    twostate predicate Taken(node: nat, nu: nat)
      reads `arena, `freeList, `text, `unitsStart, `loUnit, `hiUnit, `space
    {
      && |arena| == |old(arena)| && text == old(text) && LiveKept(old(space), old(arena), space, arena)
      && if node == 0 then Valid({}) && space.live == old(space).live else
           && Valid({node}) && node !in old(space).live && space.live == old(space).live + {node}
           && node in space.tiles.size && space.tiles.size[node] == nu
    }

    /** Cuts the tail off a block held, and puts it on the lists. */
    method SplitBlock(ptr: nat, oldIndx: nat, newIndx: nat)
      requires Struct() && ptr in space.loose && newIndx < oldIndx < NUM_INDEXES
      requires space.tiles.size[ptr] == I2U(oldIndx)
      modifies `arena, `freeList, `space
      ensures Struct() && SameBounds()
      ensures space.live == old(space).live && space.loose == old(space).loose
      ensures KeptBut(old(space).tiles, space.tiles, ptr)
      ensures ptr in space.tiles.size && space.tiles.size[ptr] == I2U(newIndx)
      ensures space.lists == FiledLists(old(space).lists, ptr + I2U(newIndx), I2U(oldIndx) - I2U(newIndx))
      ensures forall u :: 0 <= u < |arena| && !(ptr + I2U(newIndx) <= u < ptr + I2U(oldIndx)) ==>
                arena[u] == old(arena)[u]
    {
      hide Sound;
      SoundBasics(space);
      var nu := I2U(oldIndx) - I2U(newIndx);
      CutLoose(ptr, I2U(newIndx));
      InsertUnits(ptr + I2U(newIndx), nu);
    }

    method TakeListed(indx: nat) returns (retVal: nat)
      requires Valid({}) && indx < NUM_INDEXES && indx < |freeList| && freeList[indx] != 0
      modifies `freeList, `space
      ensures retVal != 0 && Taken(retVal, I2U(indx))
      ensures retVal == old(freeList)[indx] && space.lists == Popped(old(space).lists, indx)
    {
      hide Sound;
      retVal := RemoveNode(indx);
      ghost var was := space;
      TakeSound(space, retVal);
      space := space.(live := space.live + {retVal}, loose := space.loose - {retVal});
      KeepsLive(old(space), arena, space, arena);
      StaysValid({retVal});
    }

    /** Bookkeeping only: the one block held goes into use. */
    ghost method Give(node: nat)
      requires Struct() && space.loose == {node}
      modifies `space
      ensures Struct() && space == old(space).(live := old(space).live + {node}, loose := {})
    {
      hide Sound;
      ghost var was := space;
      TakeSound(space, node);
      space := space.(live := space.live + {node}, loose := {});
      assert was.loose - {node} == {};
    }

    method TakeSplit(i: nat, indx: nat) returns (retVal: nat)
      requires Valid({}) && indx < i < NUM_INDEXES && i < |freeList| && freeList[i] != 0
      modifies `arena, `freeList, `space
      ensures retVal != 0 && Taken(retVal, I2U(indx))
      ensures retVal == old(freeList)[i]
      ensures space.lists == FiledLists(Popped(old(space).lists, i), retVal + I2U(indx), I2U(i) - I2U(indx))
    {
      hide Sound;
      SoundBasics(space);
      retVal := RemoveNode(i);
      ghost var was := space;
      SplitBlock(retVal, i, indx);
      Give(retVal);
      forall u: nat ensures WriteOk(old(space), old(arena), arena, u) {
        SoundBasics(was);
        Owned(was.tiles, retVal, u);
      }
      KeepsLive(old(space), old(arena), space, arena);
      StaysValid({retVal});
    }

    /** New blocks: a block on units that no block owns so far is put into use. */
    ghost method AddBlock(b: nat, k: nat)
      requires Sound(space) && LinksOf(arena, space.link) && space.freeList == freeList
      requires space.loose == {} && 0 < k && 0 < b < |arena|
      requires forall u :: u in space.tiles.owner ==> !(b <= u < b + k)
      modifies `space
      ensures Sound(space) && LinksOf(arena, space.link) && space.freeList == freeList
      ensures space.loose == {} && b !in old(space).live
      ensures space.live == old(space).live + {b} && b in space.tiles.size && space.tiles.size[b] == k
      ensures forall u :: u in space.tiles.owner <==> u in old(space).tiles.owner || b <= u < b + k
      ensures LiveKept(old(space), arena, space, arena) && space.lists == old(space).lists
    {
      hide Sound;
      hide Tiled;
      hide LiveKept;
      SoundBasics(space);
      ghost var was := space;
      AddSound(space, b, k);
      space := space.(tiles := Add(space.tiles, b, k), live := space.live + {b});
      forall u: nat ensures u in space.tiles.owner <==> u in was.tiles.owner || b <= u < b + k {
        assert Within(b, k, u) <==> b <= u < b + k;
      }
      KeepsLive(was, arena, space, arena);
    }

    /** Takes units from the start of the gap. */
    method TakeLow(nu: nat) returns (retVal: nat)
      requires Valid({}) && 1 <= nu && UNIT_SIZE * nu <= UNIT_SIZE * (hiUnit - loUnit)
      modifies `loUnit, `space
      ensures retVal != 0 && Taken(retVal, nu)
      ensures retVal == old(loUnit) && loUnit == retVal + nu && space.lists == old(space).lists
    {
      hide Sound;
      hide LiveKept;
      retVal := loUnit;
      loUnit := loUnit + nu;
      AddBlock(retVal, nu);
      StaysValid({retVal});
    }

    /** Takes the last unit of the gap. */
    method TakeHigh() returns (retVal: nat)
      requires Valid({}) && hiUnit != loUnit
      modifies `hiUnit, `space
      ensures retVal != 0 && Taken(retVal, 1)
      ensures retVal + 1 == old(hiUnit) && hiUnit == retVal && space.lists == old(space).lists
    {
      hide Sound;
      hide LiveKept;
      hiUnit := hiUnit - 1;
      retVal := hiUnit;
      AddBlock(retVal, 1);
      StaysValid({retVal});
    }

    /** Takes units from the end of the text area. */
    method TakeText(nu: nat) returns (retVal: nat)
      requires Valid({}) && 1 <= nu && UNIT_SIZE * unitsStart - text > UNIT_SIZE * nu
      modifies `unitsStart, `space
      ensures retVal != 0 && Taken(retVal, nu)
      ensures retVal + nu == old(unitsStart) && unitsStart == retVal && space.lists == old(space).lists
    {
      hide Sound;
      hide LiveKept;
      unitsStart := unitsStart - nu;
      retVal := unitsStart;
      AddBlock(retVal, nu);
      StaysValid({retVal});
    }

    /** No list from `indx` on has a block. */
    ghost predicate NoneFrom(indx: nat)
      reads `freeList
    {
      forall j :: indx <= j < |freeList| ==> freeList[j] == 0
    }

    /**
      Without gluing: the head of the next list that has a block, what is left of it going back to the lists; or, if all
      are empty, units from the end of the text area, as long as there is more room than that.
     */
    twostate predicate Rarely(indx: nat, node: nat)
      reads `freeList, `glueCount, `unitsStart, `space
    {
      var i := FirstFrom(old(freeList), indx);
      if i < |old(freeList)| then
        && node == old(freeList)[i] && glueCount == old(glueCount) && unitsStart == old(unitsStart)
        && I2U(indx) <= I2U(i)
        && space.lists == FiledLists(Popped(old(space).lists, i), node + I2U(indx), I2U(i) - I2U(indx))
      else
        && glueCount == old(glueCount) - 1 && space.lists == old(space).lists
        && if UNIT_SIZE * old(unitsStart) - old(text) > UNIT_SIZE * I2U(indx) then
             node + I2U(indx) == old(unitsStart) && unitsStart == node
           else node == 0 && unitsStart == old(unitsStart)
    }

    /** When a list is empty: joins free neighbours when due, then takes a larger block, or units of the text area. */
    method AllocUnitsRare(indx: nat) returns (retVal: nat)
      requires Valid({}) && indx < NUM_INDEXES && indx < |freeList| && freeList[indx] == 0
      modifies `arena, `freeList, `glueCount, `unitsStart, `space
      ensures Taken(retVal, I2U(indx))
      ensures retVal == 0 ==> NoneFrom(indx) && UNIT_SIZE * unitsStart - text <= UNIT_SIZE * I2U(indx)
      ensures old(glueCount) != 0 ==> Rarely(indx, retVal)
    {
      hide Sound;
      hide LiveKept;
      hide FiledLists;
      SoundBasics(space);
      LiveKeptSelf(space, arena);
      if glueCount == 0 {
        GlueFreeBlocks();
        SoundBasics(space);
        if freeList[indx] != 0 {
          ghost var was, before := space, arena;
          retVal := TakeListed(indx);
          LiveKeptTrans(old(space), old(arena), was, before, space, arena);
          return;
        }
      }
      var i := indx;
      while true
        invariant indx <= i < NUM_INDEXES == |freeList| && forall j :: indx <= j <= i ==> freeList[j] == 0
        decreases NUM_INDEXES - i
      {
        i := i + 1;
        if i == NUM_INDEXES || freeList[i] != 0 {
          break;
        }
      }
      ghost var was, before := space, arena;
      if i == NUM_INDEXES {
        retVal := 0;
        glueCount := glueCount - 1;
        if UNIT_SIZE * unitsStart - text > UNIT_SIZE * I2U(indx) {
          retVal := TakeText(I2U(indx));
          LiveKeptTrans(old(space), old(arena), was, before, space, arena);
        }
      } else {
        retVal := TakeSplit(i, indx);
        LiveKeptTrans(old(space), old(arena), was, before, space, arena);
      }
    }

    /** The head of the list, which goes on without it. */
    twostate predicate Listed(indx: nat, node: nat)
      reads `freeList, `unitsStart, `space
    {
      && indx < |old(freeList)| && node == old(freeList)[indx]
      && space.lists == Popped(old(space).lists, indx) && unitsStart == old(unitsStart)
    }

    /** A block of class `indx`, from its list, the gap, or wherever else one can be had. */
    method AllocUnits(indx: nat) returns (retVal: nat)
      requires Valid({}) && indx < NUM_INDEXES
      modifies `arena, `freeList, `glueCount, `unitsStart, `loUnit, `space
      ensures Taken(retVal, I2U(indx))
      ensures retVal == 0 ==> NoneFrom(indx) && UNIT_SIZE * (hiUnit - loUnit) < UNIT_SIZE * I2U(indx)
      ensures retVal == 0 ==> UNIT_SIZE * unitsStart - text <= UNIT_SIZE * I2U(indx)
      ensures |old(freeList)| == NUM_INDEXES
      ensures old(freeList)[indx] != 0 ==> Listed(indx, retVal) && loUnit == old(loUnit)
      ensures old(freeList)[indx] == 0 && UNIT_SIZE * I2U(indx) <= UNIT_SIZE * (old(hiUnit) - old(loUnit)) ==>
                && retVal == old(loUnit) && loUnit == retVal + I2U(indx)
                && space.lists == old(space).lists && unitsStart == old(unitsStart)
      ensures old(freeList)[indx] == 0 && UNIT_SIZE * (old(hiUnit) - old(loUnit)) < UNIT_SIZE * I2U(indx) ==>
                loUnit == old(loUnit) && (old(glueCount) != 0 ==> Rarely(indx, retVal))
    {
      hide Sound;
      hide FiledLists;
      hide FirstFrom;
      SoundBasics(space);
      ClassOfOwnSize(indx);
      if freeList[indx] != 0 {
        retVal := TakeListed(indx);
      } else if UNIT_SIZE * I2U(indx) <= UNIT_SIZE * (hiUnit - loUnit) {
        retVal := TakeLow(I2U(indx));
      } else {
        retVal := AllocUnitsRare(indx);
      }
    }

    /** A unit for a new context, taken from the high end of the gap first. */
    method AllocContext() returns (retVal: nat)
      requires Valid({})
      modifies `arena, `freeList, `glueCount, `unitsStart, `hiUnit, `space
      ensures Taken(retVal, 1)
      ensures retVal == 0 ==> NoneFrom(0) && hiUnit == loUnit && UNIT_SIZE * unitsStart - text <= UNIT_SIZE
      ensures |old(freeList)| == NUM_INDEXES
      ensures old(hiUnit) != old(loUnit) ==>
                && retVal + 1 == old(hiUnit) && hiUnit == retVal
                && space.lists == old(space).lists && unitsStart == old(unitsStart)
      ensures old(hiUnit) == old(loUnit) && old(freeList)[0] != 0 ==> Listed(0, retVal) && hiUnit == old(hiUnit)
      ensures old(hiUnit) == old(loUnit) && old(freeList)[0] == 0 ==>
                hiUnit == old(hiUnit) && (old(glueCount) != 0 ==> Rarely(0, retVal))
    {
      hide Sound;
      hide FiledLists;
      hide FirstFrom;
      SoundBasics(space);
      if hiUnit != loUnit {
        retVal := TakeHigh();
      } else if freeList[0] != 0 {
        retVal := TakeListed(0);
      } else {
        retVal := AllocUnitsRare(0);
      }
    }

    /** The caller writes a unit of a block it uses; the first word of a block in use is never 0. */
    method Store(b: nat, u: nat, h: Cell, ghost but: set<nat>)
      requires Valid(but) && b in space.live && b in space.tiles.size && b <= u < b + space.tiles.size[b]
      requires u < |arena| && (u == b ==> Stamp(h.word0) != 0)
      modifies `arena, `space
      ensures Valid(if u == b then but - {b} else but) && SameBounds()
      ensures arena == old(arena)[u := h] && space == old(space).(link := space.link)
    {
      hide Sound;
      hide Tiled;
      SoundBasics(space);
      Owned(space.tiles, b, u);
      Poke(u, h);
      ghost var left := if u == b then but - {b} else but;
      forall c: nat ensures UseOk(space, arena, left, c) {
        assert old(UseOk(space, arena, but, c));
        if c in space.live {
          OwnStart(space.tiles, c);
        }
      }
    }

    /** A unit of a block that is on no list is written. */
    method Poke(u: nat, h: Cell)
      requires Struct() && u < |arena|
      requires u in space.tiles.owner && (space.tiles.owner[u] in space.live || space.tiles.owner[u] in space.loose)
      modifies `arena, `space
      ensures Struct() && SameBounds() && arena == old(arena)[u := h]
      ensures space == old(space).(link := space.link)
    {
      hide Sound;
      hide Tiled;
      SoundBasics(space);
      if u in space.tiles.size {
        OwnStart(space.tiles, u);
      }
      PokeSound(space, u, h.word0);
      ghost var was := space;
      arena := arena[u := h];
      space := space.(link := space.link[u := h.word0]);
    }

    /** Bookkeeping only: a block in use is given up. */
    ghost method Release(ptr: nat)
      requires Struct() && ptr in space.live && ptr < |arena|
      modifies `space
      ensures Struct()
      ensures space == old(space).(live := old(space).live - {ptr}, loose := old(space).loose + {ptr})
    {
      hide Sound;
      SoundBasics(space);
      ghost var was := space;
      ReleaseSound(space, ptr);
      space := space.(live := space.live - {ptr}, loose := space.loose + {ptr});
    }

    /** What is left when a block in use is given up. */
    twostate predicate Freed(ptr: nat, but: set<nat>)
      reads `arena, `freeList, `text, `unitsStart, `loUnit, `hiUnit, `space
    {
      && Valid(but - {ptr}) && |arena| == |old(arena)| && text == old(text)
      && space.live == old(space).live - {ptr}
      && LiveKept(Without(old(space), {ptr}), old(arena), space, arena)
    }

    /** A client gives a block up: it goes to the list of its class. */
    method GiveBack(ptr: nat, nu: nat, ghost but: set<nat>)
      requires Valid(but) && 1 <= nu <= 128 && ptr in space.live && ptr in space.tiles.size
      requires space.tiles.size[ptr] == I2U(U2I(nu))
      modifies `arena, `freeList, `space
      ensures Freed(ptr, but) && space.lists == Front(old(space).lists, U2I(nu), ptr) && space.tiles == old(space).tiles
    {
      hide Sound;
      SoundBasics(space);
      SmallestClass(nu, 0);
      LiveKeptSelf(space, arena);
      ghost var was := space;
      FreeOne(ptr, U2I(nu));
      LosesAndGains(old(space), old(arena), but, {ptr}, {});
      assert but - {ptr} + {} == but - {ptr};
    }

    /** A block in use goes to the list of its class. */
    method FreeOne(ptr: nat, indx: nat)
      requires Struct() && indx < NUM_INDEXES && ptr in space.live && ptr in space.tiles.size
      requires space.tiles.size[ptr] == I2U(indx) && ptr !in space.loose
      modifies `arena, `freeList, `space
      ensures Struct() && SameBounds()
      ensures space.loose == old(space).loose && space.live == old(space).live - {ptr} && space.tiles == old(space).tiles
      ensures space.lists == Front(old(space).lists, indx, ptr)
      ensures LiveKept(Without(old(space), {ptr}), old(arena), space, arena)
      ensures forall u :: 0 <= u < |arena| && u != ptr ==> arena[u] == old(arena)[u]
    {
      hide Sound;
      hide Tiled;
      SoundBasics(space);
      HomeOf(space, ptr);
      Release(ptr);
      InsertNode(ptr, indx);
      ghost var s := Without(old(space), {ptr});
      forall u: nat ensures WriteOk(s, old(arena), arena, u) {
        OwnStart(s.tiles, ptr);
      }
      KeepsLive(s, old(arena), space, arena);
    }

    /** Two blocks have no unit in common. */
    lemma FarApart(dest: nat, src: nat)
      requires Struct() && dest != src && dest in space.tiles.size && src in space.tiles.size
      ensures dest + space.tiles.size[dest] <= src || src + space.tiles.size[src] <= dest
      ensures dest + space.tiles.size[dest] <= |arena| && src + space.tiles.size[src] <= |arena|
    {
      hide Sound;
      hide Tiled;
      SoundBasics(space);
      OwnStart(space.tiles, dest);
      OwnStart(space.tiles, src);
      Owned(space.tiles, dest, dest + space.tiles.size[dest] - 1);
      Owned(space.tiles, src, src + space.tiles.size[src] - 1);
      if dest < src {
        BlocksDisjoint(space.tiles, dest, src);
      } else {
        BlocksDisjoint(space.tiles, src, dest);
      }
    }

    /** One unit is copied. */
    method CopyUnit(ghost dest: nat, ghost src: nat, d: nat, z: nat)
      requires Struct() && dest in space.tiles.size && (dest in space.live || dest in space.loose)
      requires src in space.tiles.size && dest <= d < dest + space.tiles.size[dest]
      requires src <= z < src + space.tiles.size[src]
      modifies `arena, `space
      ensures Struct() && SameBounds() && space == old(space).(link := space.link)
      ensures d < |arena| && z < |arena| && arena == old(arena)[d := old(arena)[z]]
    {
      hide Sound;
      hide Tiled;
      SoundBasics(space);
      Owned(space.tiles, dest, d);
      Owned(space.tiles, src, z);
      assert InArea(d) && InArea(z);
      Poke(d, arena[z]);
    }

    /** Copies the units of one block to another, one after the other. */
    method CopyUnits(dest: nat, src: nat, num: nat)
      requires Struct() && 1 <= num && dest != src
      requires dest in space.tiles.size && num <= space.tiles.size[dest] && (dest in space.live || dest in space.loose)
      requires src in space.tiles.size && num <= space.tiles.size[src] && (src in space.live || src in space.loose)
      modifies `arena, `space
      ensures Struct() && SameBounds() && space == old(space).(link := space.link)
      ensures dest + num <= |arena| && src + num <= |arena|
      ensures forall k :: dest <= k < dest + num ==> arena[k] == old(arena)[src + (k - dest)]
      ensures forall u :: 0 <= u < |arena| && !(dest <= u < dest + num) ==> arena[u] == old(arena)[u]
    {
      hide Sound;
      hide Tiled;
      hide Struct;
      FarApart(dest, src);
      var d, z, n := dest, src, num;
      while true
        invariant 1 <= n <= num && d == dest + (num - n) && z == src + (num - n)
        invariant Struct() && SameBounds() && space == old(space).(link := space.link)
        invariant forall k :: dest <= k < d ==> k < |arena| && src + (k - dest) < |arena| && arena[k] == old(arena)[src + (k - dest)]
        invariant forall u :: 0 <= u < |arena| && !(dest <= u < d) ==> arena[u] == old(arena)[u]
        decreases n
      {
        CopyUnit(dest, src, d, z);
        z, d, n := z + 1, d + 1, n - 1;
        if n == 0 {
          break;
        }
      }
    }

    /** A block in use, perhaps shrunk, is now at `ptr`, with its first `nu` units; all others are kept. */
    twostate predicate Moved(oldPtr: nat, ptr: nat, nu: nat, but: set<nat>)
      reads `arena, `freeList, `text, `unitsStart, `loUnit, `hiUnit, `space
    {
      && Valid(but) && |arena| == |old(arena)| && text == old(text) && 1 <= nu <= 128
      && (ptr == oldPtr || ptr !in old(space).live) && space.live == old(space).live - {oldPtr} + {ptr}
      && ptr in space.tiles.size && space.tiles.size[ptr] == I2U(U2I(nu))
      && LiveKept(Without(old(space), {oldPtr}), old(arena), space, arena)
      && ptr + nu <= |arena| && oldPtr + nu <= |arena|
      && arena[ptr..ptr + nu] == old(arena)[oldPtr..oldPtr + nu]
    }

    /** A block just filled no longer counts as unwritten. */
    lemma Written(ptr: nat, but: set<nat>)
      requires Valid(but + {ptr}) && ptr < |arena| && Stamp(arena[ptr].word0) != 0
      ensures Valid(but)
    {
      forall b: nat ensures UseOk(space, arena, but, b) {
        assert UseOk(space, arena, but + {ptr}, b);
      }
    }

    lemma InBounds(b: nat, nu: nat)
      requires Struct() && b in space.tiles.size && 1 <= nu <= space.tiles.size[b]
      ensures b + nu <= |arena| && InArea(b)
    {
      hide Sound;
      hide Tiled;
      SoundBasics(space);
      OwnStart(space.tiles, b);
      Owned(space.tiles, b, b + nu - 1);
      assert InArea(b + nu - 1);
    }

    /** Takes a block off a list and copies the content of another one into it. */
    method TakeCopy(oldPtr: nat, indx: nat, nu: nat) returns (ptr: nat)
      requires Struct() && space.loose == {} && indx < NUM_INDEXES && 1 <= nu <= I2U(indx)
      requires indx < |freeList| && freeList[indx] != 0
      requires oldPtr in space.live && oldPtr in space.tiles.size && nu <= space.tiles.size[oldPtr]
      modifies `arena, `freeList, `space
      ensures Struct() && SameBounds() && ptr == old(freeList)[indx] && space.loose == {ptr}
      ensures space.live == old(space).live && ptr !in space.live && space.tiles == old(space).tiles
      ensures space.lists == Popped(old(space).lists, indx)
      ensures ptr in space.tiles.size && space.tiles.size[ptr] == I2U(indx) && ptr + nu <= |arena|
      ensures oldPtr + nu <= |arena| && arena[ptr..ptr + nu] == old(arena)[oldPtr..oldPtr + nu]
      ensures LiveKept(old(space), old(arena), space, arena)
      ensures arena[ptr] == old(arena)[oldPtr] && !(ptr <= oldPtr < ptr + nu)
    {
      hide Sound;
      hide Tiled;
      SoundBasics(space);
      ptr := RemoveNode(indx);
      if ptr < oldPtr {
        BlocksDisjoint(space.tiles, ptr, oldPtr);
      }
      CopyUnits(ptr, oldPtr, nu);
      forall u: nat ensures WriteOk(old(space), old(arena), arena, u) {
        Owned(old(space).tiles, ptr, u);
      }
      KeepsLive(old(space), old(arena), space, arena);
    }

    /** Bookkeeping only: the block copied to is in use now, the one copied from was given up. */
    ghost method FinishMove(s: Space, a: seq<Cell>, was: Space, before: seq<Cell>, oldPtr: nat, ptr: nat, but: set<nat>)
      requires Struct() && space.loose == {ptr} && space.live == s.live - {oldPtr} && ptr !in s.live
      requires Sound(s) && (forall b :: UseOk(s, a, but, b)) && |a| == |arena| > 0
      requires LiveKept(s, a, was, before) && LiveKept(Without(was, {oldPtr}), before, space, arena)
      requires ptr < |arena| && Stamp(arena[ptr].word0) != 0
      modifies `space
      ensures Valid(but) && space.live == s.live - {oldPtr} + {ptr} && space.tiles == old(space).tiles
      ensures space.lists == old(space).lists
      ensures LiveKept(Without(s, {oldPtr}), a, space, arena)
    {
      hide Sound;
      hide LiveKept;
      SoundBasics(space);
      ghost var now := space;
      Give(ptr);
      KeepsLive(now, arena, space, arena);
      LiveKeptLess(s, a, was, before, {oldPtr});
      LiveKeptTrans(Without(s, {oldPtr}), a, Without(was, {oldPtr}), before, now, arena);
      LiveKeptTrans(Without(s, {oldPtr}), a, now, arena, space, arena);
      LosesAndGains(s, a, but, {oldPtr}, {ptr});
      forall b: nat ensures UseOk(space, arena, but + {ptr}, b) {
        assert UseOk(space, arena, but - {oldPtr} + {ptr}, b);
      }
      Written(ptr, but);
    }

    /**
      From class `i0` to class `i1`: the head of the list of the smaller class, if it has one, the block moved from going
      to its own list; otherwise the block itself, its tail going to the lists.
     */
    twostate predicate Shrunk(oldPtr: nat, ptr: nat, i0: nat, i1: nat)
      reads `space
    {
      var lists := old(space).lists;
      if i0 == i1 then ptr == oldPtr && space.lists == lists
      else if i1 < |old(freeList)| && old(freeList)[i1] != 0 then
        ptr == old(freeList)[i1] && space.lists == Front(Popped(lists, i1), i0, oldPtr)
      else
        ptr == oldPtr && I2U(i1) <= I2U(i0)
        && space.lists == FiledLists(lists, oldPtr + I2U(i1), I2U(i0) - I2U(i1))
    }

    /** Shrinks a block: into one from the list of the smaller class, or by cutting off its tail. */
    method ShrinkUnits(oldPtr: nat, oldNU: nat, newNU: nat, ghost but: set<nat>) returns (ptr: nat)
      requires Valid(but) && 1 <= newNU <= oldNU <= 128 && oldPtr in space.live && oldPtr !in but
      requires oldPtr in space.tiles.size && space.tiles.size[oldPtr] == I2U(U2I(oldNU))
      modifies `arena, `freeList, `space
      ensures Moved(oldPtr, ptr, newNU, but) && Shrunk(oldPtr, ptr, U2I(oldNU), U2I(newNU))
    {
      hide FiledLists;
      hide I2U;
      hide U2I;
      hide Sound;
      hide Tiled;
      hide LiveKept;
      SoundBasics(space);
      SmallestClass(oldNU, 0);
      SmallestClass(newNU, 0);
      var i0, i1 := U2I(oldNU), U2I(newNU);
      SmallestClass(newNU, i1);
      SmallestClass(newNU, i0);
      SmallestClass(oldNU, i0);
      InBounds(oldPtr, newNU);
      LiveKeptSelf(space, arena);
      if i0 == i1 {
        LiveKeptLess(space, arena, space, arena, {oldPtr});
        return oldPtr;
      }
      if freeList[i1] != 0 {
        ptr := TakeCopy(oldPtr, i1, newNU);
        ghost var was, before := space, arena;
        FreeOne(oldPtr, i0);
        assert arena[ptr..ptr + newNU] == before[ptr..ptr + newNU];
        assert UseOk(old(space), old(arena), but, oldPtr);
        FinishMove(old(space), old(arena), was, before, oldPtr, ptr, but);
      } else {
        ClassOfOwnSize(i1);
        SmallestClass(I2U(i1), i0);
        ShrinkInPlace(oldPtr, i0, i1, newNU, but);
        ptr := oldPtr;
      }
    }

    /** The tail of a block in use is cut off and put on the lists. */
    method ShrinkInPlace(ptr: nat, i0: nat, i1: nat, nu: nat, ghost but: set<nat>)
      requires Valid(but) && i1 < i0 < NUM_INDEXES && 1 <= nu <= I2U(i1) && U2I(nu) == i1 && ptr in space.live && ptr !in but
      requires ptr in space.tiles.size && space.tiles.size[ptr] == I2U(i0)
      modifies `arena, `freeList, `space
      ensures Moved(ptr, ptr, nu, but)
      ensures space.lists == FiledLists(old(space).lists, ptr + I2U(i1), I2U(i0) - I2U(i1))
    {
      hide FiledLists;
      hide Sound;
      hide Tiled;
      hide LiveKept;
      SoundBasics(space);
      ClassOfOwnSize(i1);
      HomeOf(space, ptr);
      InBounds(ptr, nu);
      Release(ptr);
      SplitBlock(ptr, i0, i1);
      ghost var s := Without(old(space), {ptr});
      forall u: nat ensures WriteOk(s, old(arena), arena, u) {
        Owned(s.tiles, ptr, u);
      }
      KeepsLive(s, old(arena), space, arena);
      ghost var now := space;
      Give(ptr);
      SoundBasics(space);
      KeepsLive(now, arena, space, arena);
      LiveKeptTrans(s, old(arena), now, arena, space, arena);
      LosesAndGains(old(space), old(arena), but, {ptr}, {ptr});
      assert but - {ptr} + {ptr} == but + {ptr};
      assert UseOk(old(space), old(arena), but, ptr);
      Written(ptr, but);
      assert arena[ptr..ptr + nu] == old(arena)[ptr..ptr + nu];
    }

    /**
      One more byte of text. When the text has come to the units, which it never passes, the caller has to restart the
      model; until then all is as it should be.
     */
    method AppendText(ghost but: set<nat>) returns (full: bool)
      requires Valid(but)
      modifies `text
      ensures text == old(text) + 1 && full == (text == UNIT_SIZE * unitsStart) && text <= UNIT_SIZE * unitsStart
      ensures !full ==> Valid(but)
    {
      text := text + 1;
      full := text >= UNIT_SIZE * unitsStart;
    }
  }

  /** Blocks in use that keep their content keep a first word that is a stamp. */
  lemma MarksKept(s: Space, a: seq<Cell>, r: Space, c: seq<Cell>, but: set<nat>, more: set<nat>)
    requires Tiled(s.tiles) && LiveKept(s, a, r, c) && r.live == s.live + more && forall b :: UseOk(s, a, but, b)
    ensures forall b :: UseOk(r, c, but + more, b)
  {
    hide Tiled;
    forall b: nat ensures UseOk(r, c, but + more, b) {
      assert UseOk(s, a, but, b) && LiveBlockKept(s, a, r, c, b);
      if b in s.live {
        OwnStart(s.tiles, b);
      }
    }
  }

  /** Blocks in use are kept when only nodes of the ring, and its head, are written. */
  lemma RingKeepsLive(s: Space, a: seq<Cell>, r: Space, c: seq<Cell>, h: nat, chain: seq<nat>)
    requires Tiled(s.tiles) && s.live <= s.tiles.size.Keys && s.live == r.live && s.live !! s.loose && |c| == |a|
    requires h !in s.tiles.owner && forall b :: b in chain ==> b in s.loose && b in s.tiles.size
    requires forall u :: 0 <= u < |a| && u != h && u !in chain ==> c[u] == a[u]
    requires forall b :: b in s.live && b in s.tiles.size ==> b in r.tiles.size && r.tiles.size[b] == s.tiles.size[b]
    ensures LiveKept(s, a, r, c)
  {
    hide Tiled;
    forall u: nat ensures WriteOk(s, a, c, u) {
      if u in chain {
        OwnStart(s.tiles, u);
      }
    }
    KeepsLive(s, a, r, c);
  }

  /** With all lists empty, links do not matter. */
  lemma RelinkAll(s: Space, link: seq<nat>)
    requires Sound(s) && NothingListed(s) && |link| == |s.link|
    ensures Sound(s.(link := link))
  {
    hide Sound;
    SoundBasics(s);
    var r := s.(link := link);
    forall j: nat ensures ListOk(r, j) {
    }
    forall j: nat, a: nat ensures NodeOk(r, j, a) {
    }
    forall b: nat ensures HomeOk(r, b) {
      if b in s.tiles.size {
        HomeOf(s, b);
      }
    }
    SoundIntro(r);
  }

  /** The chain becomes a ring once the head points at its first node and back. */
  lemma RingCloses(a: seq<Cell>, m: seq<Cell>, h: nat, c: seq<nat>)
    requires HalfRing(a, c + [h]) && NoDup(c) && h !in c && |m| == |a| && h < |a| && (c + [h])[0] < |a|
    requires forall u :: 0 <= u < |a| ==> m[u].next == (if u == h then (c + [h])[0] else a[u].next)
    requires forall u :: 0 <= u < |a| ==> m[u].prev == (if u == (c + [h])[0] then h else a[u].prev)
    ensures Ring(m, h, c)
  {
    var f, g := c + [h], Around(h, c);
    assert g == [h] + f;
    forall j: nat ensures RingAt(m, g, j) {
      if j > 0 {
        assert RingAt(a, f, j - 1);
        if j <= |c| {
          ChainDistinct(c, h, j - 1, |c|);
        }
        ChainDistinct(c, h, 0, j);
      }
    }
  }

  lemma ChainDistinct(c: seq<nat>, h: nat, i: nat, j: nat)
    requires NoDup(c) && h !in c && i < j
    ensures j <= |c| ==> (c + [h])[i] != (c + [h])[j]
  {
    var f := c + [h];
    assert j < |c| ==> f[i] == c[i] && f[j] == c[j];
    assert j == |c| ==> f[j] == h && f[i] == c[i] && c[i] in c;
  }

  /** The first of the second sequence moves to the front of the first. */
  lemma NoDupMove(a: seq<nat>, b: seq<nat>)
    requires b != [] && NoDup(a + b)
    ensures NoDup([b[0]] + a + b[1..])
  {
    var c, d := a + b, [b[0]] + a + b[1..];
    forall j, k | 0 <= j < k < |d| ensures d[j] != d[k] {
      var j' := if j == 0 then |a| else if j <= |a| then j - 1 else j;
      var k' := if k == 0 then |a| else if k <= |a| then k - 1 else k;
      assert d[j] == c[j'] && d[k] == c[k'];
    }
  }
}
