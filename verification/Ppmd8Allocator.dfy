/** The PPMd8 sub-allocator: counted free lists over an arena of 12-byte units, between a text area and a gap. */
module Ppmd8Allocator {
  import opened Tiling
  import opened SizeClasses
  import opened FreeSpace
  import opened InUse
  import opened FreeRuns

  /** The three words of a unit that the allocator uses while a block is free. */
  datatype Header = Header(stamp: nat, next: nat, nu: nat)

  const EMPTY_NODE: nat := 0xFFFF_FFFF
  const UNIT_SIZE: nat := 12

  ghost predicate LinksOf(arena: seq<Header>, link: seq<nat>) {
    |link| == |arena| && forall u :: 0 <= u < |arena| ==> link[u] == arena[u].next
  }

  /** A block on a free list is marked empty and records its size. */
  ghost predicate MarkOk(s: Space, arena: seq<Header>, b: nat) {
    b in s.tiles.size && b !in s.live && b !in s.loose ==>
      b < |arena| && arena[b].stamp == EMPTY_NODE && arena[b].nu == s.tiles.size[b]
  }

  /** A block in use, apart from those in `but`, does not look empty. */
  ghost predicate UseOk(s: Space, arena: seq<Header>, but: set<nat>, b: nat) {
    b in s.live && b !in but ==> b < |arena| && arena[b].stamp != EMPTY_NODE
  }

  class Allocator8 {
    /** The address where the text area starts. */
    const base: nat
    /** All units; unit 0 is never part of a block, so that 0 is the null reference. */
    var arena: seq<Header>
    var freeList: seq<nat>
    var stamps: seq<nat>
    /** `text` is a byte address, the others are units of 12 bytes. */
    var text: nat
    var unitsStart: nat
    var loUnit: nat
    var hiUnit: nat
    var glueCount: nat
    ghost var space: Space

    /** The units between the text area and the end, without the gap. */
    ghost predicate InArea(u: nat)
      reads `arena, `unitsStart, `loUnit, `hiUnit
    {
      unitsStart <= u < |arena| && !(loUnit <= u < hiUnit)
    }

    /** The bounds of the areas, and the blocks tiling them. */
    ghost predicate Laid()
      reads `arena, `unitsStart, `loUnit, `hiUnit, `text, `space
    {
      && 0 < unitsStart <= |arena| && loUnit <= hiUnit < |arena| && (unitsStart <= loUnit || loUnit == hiUnit)
      && base <= text < UNIT_SIZE * unitsStart
      && (forall u :: u in space.tiles.owner <==> InArea(u))
    }

    ghost predicate Struct()
      reads `arena, `freeList, `text, `unitsStart, `loUnit, `hiUnit, `space
    {
      && Sound(space) && LinksOf(arena, space.link) && space.freeList == freeList
      && Laid()
      && (forall b :: MarkOk(space, arena, b))
    }

    ghost predicate Counted()
      reads `stamps, `space
    {
      |stamps| == |space.lists| && forall i :: 0 <= i < |stamps| ==> stamps[i] == |space.lists[i]|
    }

    ghost predicate Marked(but: set<nat>)
      reads `arena, `space
    {
      forall b :: UseOk(space, arena, but, b)
    }

    /** Everything but the links, the lists and the marks of free blocks. */
    twostate predicate SameBounds()
      reads this
    {
      && |arena| == |old(arena)| && text == old(text) && unitsStart == old(unitsStart) && loUnit == old(loUnit)
      && hiUnit == old(hiUnit) && glueCount == old(glueCount)
    }

    /**
      RestartModel: seven eighths of the memory become units. The order-0 context takes the last of them, its 256 states
      the first 128. Addresses count from a point below the text area such that units start at multiples of 12.
     */
    constructor (size: nat, memory: seq<Header>)
      requires 0x800 <= size && |memory| == UnitCount(size)
      ensures Valid({}) && |arena| == |memory| && (forall u :: loUnit <= u < hiUnit ==> arena[u] == memory[u])
      ensures UNIT_SIZE * |arena| - base == size && text == base && glueCount == 0
      ensures |arena| - unitsStart == UnitShare(size) && loUnit == unitsStart + 128 && hiUnit == |arena| - 1
      ensures space.live == {unitsStart, hiUnit} && freeList == seq(NUM_INDEXES, _ => 0)
    {
      var n := |memory|;
      hide UnitShare;
      hide UnitCount;
      base := 12 * n - size;
      text := 12 * n - size;
      unitsStart := n - UnitShare(size);
      hiUnit := n - 1;
      loUnit := n - UnitShare(size) + 128;
      glueCount := 0;
      freeList := seq(NUM_INDEXES, _ => 0);
      stamps := seq(NUM_INDEXES, _ => 0);
      arena := memory;
      new;
      hide Tiled;
      hide Sound;
      arena := arena[hiUnit := Header(0x0101_00FF, 0, 0)];
      arena := arena[unitsStart := Header(0x0100, 0x0101, 0)];
      StartSpace();
    }

    lemma StartSound()
      requires 0 < unitsStart && loUnit == unitsStart + 128 && loUnit <= hiUnit == |arena| - 1
      requires base <= text < UNIT_SIZE * unitsStart && Tiled(space.tiles)
      requires space.tiles.size == map[unitsStart := 128, hiUnit := 1]
      requires forall u :: u in space.tiles.owner <==> InArea(u)
      requires space.live == {unitsStart, hiUnit} && space.loose == {} && LinksOf(arena, space.link)
      requires space.freeList == freeList == stamps == seq(NUM_INDEXES, _ => 0)
      requires space.lists == seq(NUM_INDEXES, _ => [])
      requires arena[unitsStart].stamp != EMPTY_NODE && arena[hiUnit].stamp != EMPTY_NODE
      ensures Valid({})
    {
      hide Tiled;
      forall j: nat ensures ListOk(space, j) {
      }
      forall j: nat, a: nat ensures NodeOk(space, j, a) {
      }
      forall b: nat ensures HomeOk(space, b) {
      }
      SoundIntro(space);
      OwnStart(space.tiles, hiUnit);
      forall b: nat ensures MarkOk(space, arena, b) {
      }
      forall b: nat ensures UseOk(space, arena, {}, b) {
      }
    }

    /** Bookkeeping only: two blocks are in use, nothing is free. */
    ghost method StartSpace()
      requires 0 < unitsStart && loUnit == unitsStart + 128 && loUnit <= hiUnit == |arena| - 1
      requires base <= text < UNIT_SIZE * unitsStart && freeList == stamps == seq(NUM_INDEXES, _ => 0)
      requires arena[unitsStart].stamp != EMPTY_NODE && arena[hiUnit].stamp != EMPTY_NODE
      modifies `space
      ensures Valid({}) && space.live == {unitsStart, hiUnit}
    {
      hide Tiled;
      hide Add;
      hide Sound;
      space := Space(seq(|arena|, u requires 0 <= u < |arena| reads this => arena[u].next), freeList,
                     Add(Add(Tiles(map[], map[]), unitsStart, 128), hiUnit, 1),
                     seq(NUM_INDEXES, _ => []), {unitsStart, hiUnit}, {});
      StartTiles(unitsStart, hiUnit);
      StartSound();
    }

    method InsertNode(node: nat, indx: nat)
      requires Struct() && Counted() && node in space.loose && indx < NUM_INDEXES
      requires space.tiles.size[node] == I2U(indx)
      modifies `arena, `freeList, `stamps, `space
      ensures Struct() && Counted() && SameBounds()
      ensures node < |old(arena)| && |old(freeList)| == |old(space).lists| == NUM_INDEXES
      ensures arena == old(arena)[node := Header(EMPTY_NODE, old(freeList)[indx], I2U(indx))]
      ensures space == Insert(old(space), node, indx)
    {
      hide Sound;
      InsertSound(space, node, indx);
      ghost var was, before := space, arena;
      arena := arena[node := Header(EMPTY_NODE, freeList[indx], I2U(indx))];
      freeList := freeList[indx := node];
      stamps := stamps[indx := stamps[indx] + 1];
      space := Insert(space, node, indx);
      forall b: nat ensures MarkOk(space, arena, b) {
        assert MarkOk(was, before, b);
      }
    }

    method RemoveNode(indx: nat) returns (node: nat)
      requires Struct() && Counted() && indx < NUM_INDEXES && indx < |freeList| && freeList[indx] != 0
      modifies `freeList, `stamps, `space
      ensures Struct() && Counted() && SameBounds()
      ensures indx < |old(space).lists| && old(space).lists[indx] != [] && old(space).freeList == old(freeList)
      ensures node == old(freeList)[indx] == old(space).lists[indx][0] && 0 < node < |arena|
      ensures node < |old(space).link| && space == Remove(old(space), indx)
      ensures node in space.loose && node !in old(space).loose && node !in space.live
      ensures node in space.tiles.size && space.tiles.size[node] == I2U(indx)
    {
      hide Sound;
      SoundBasics(space);
      RemoveSound(space, indx);
      ghost var was := space;
      node := freeList[indx];
      freeList := freeList[indx := arena[node].next];
      stamps := stamps[indx := stamps[indx] - 1];
      space := Remove(space, indx);
      forall b: nat ensures MarkOk(space, arena, b) {
        assert MarkOk(was, arena, b);
      }
    }

    /** A loose block of at most 128 units goes to the list of its size, or is cut in two that do. */
    method InsertUnits(ptr: nat, nu: nat)
      requires Struct() && Counted() && ptr in space.loose && nu == space.tiles.size[ptr] && 1 <= nu <= 128
      modifies `arena, `freeList, `stamps, `space
      ensures Struct() && Counted() && SameBounds()
      ensures space.lists == FiledLists(old(space).lists, ptr, nu) && Pieces(space.tiles, ptr, ptr + nu)
      ensures space.live == old(space).live && space.loose == old(space).loose - {ptr}
      ensures KeptBut(old(space).tiles, space.tiles, ptr) && ptr in space.tiles.size
      ensures forall u :: 0 <= u < |arena| && !(ptr <= u < ptr + nu) ==> arena[u] == old(arena)[u]
    {
      hide Sound;
      hide Tiled;
      hide U2I;
      hide I2U;
      hide Pieces;
      SoundBasics(space);
      var i := U2I(nu);
      SmallestClass(nu, 0);
      if I2U(i) != nu {
        SplitRemainder(nu);
        i := i - 1;
        var k := I2U(i);
        ClassOfOwnSize(i);
        CutLoose(ptr, k);
        InsertNode(ptr + k, nu - k - 1);
        SoundBasics(space);
        TwoPieces(space.tiles, ptr);
      } else {
        OnePiece(space.tiles, ptr);
      }
      InsertNode(ptr, i);
    }

    /** Bookkeeping only: a loose block becomes two. */
    ghost method CutLoose(b: nat, k: nat)
      requires Struct() && b in space.loose && 0 < k < space.tiles.size[b]
      modifies `space
      ensures Struct() && b + k < |arena| && b + k !in old(space).tiles.size
      ensures space == old(space).(tiles := Cut(old(space).tiles, b, k), loose := old(space).loose + {b + k})
      ensures space.tiles.size[b] == k && space.tiles.size[b + k] == old(space).tiles.size[b] - k
      ensures KeptBut(old(space).tiles, space.tiles, b)
    {
      hide Sound;
      hide Tiled;
      SoundBasics(space);
      Owned(space.tiles, b, b + k);
      assert InArea(b + k);
      CutSound(space, b, k);
      CutTiled(space.tiles, b, k);
      ghost var was := space;
      space := space.(tiles := Cut(space.tiles, b, k), loose := space.loose + {b + k});
      forall c: nat ensures MarkOk(space, arena, c) {
        assert MarkOk(was, arena, c);
      }
    }

    // ---------- gluing ----------

    /** While gluing, every free block is loose, and either already chained in `done` or still to be visited. */
    ghost predicate Gluing(done: seq<nat>, queue: seq<nat>)
      reads `arena, `unitsStart, `loUnit, `hiUnit, `text, `space
    {
      && Sound(space) && NothingListed(space) && LinksOf(arena, space.link) && Laid()
      && Marked({}) && (loUnit != hiUnit ==> arena[loUnit].stamp != EMPTY_NODE) && TopUsed()
      && NoDup(done + queue)
      && (forall b :: LooseOk(space, arena, b, done, queue)) && (forall x :: QueuedOk(space, arena, x, done, queue))
      && (forall j, k :: OrderOk(space, done, j, k))
    }

    /** No free block is behind a block met, `but` aside. */
    ghost predicate Settled(done: seq<nat>, but: nat)
      reads `space
    {
      forall b :: b in done && b != but ==> EndOk(space, 0, b)
    }

    /** The last unit belongs to a block in use: the order-0 context. */
    ghost predicate TopUsed()
      reads `arena, `space
    {
      |arena| - 1 in space.tiles.owner && space.tiles.owner[|arena| - 1] in space.live
    }

    /** What follows a block not in use is a block, or the guarded start of the gap. */
    lemma Behind(x: nat)
      requires Sound(space) && Laid() && TopUsed() && x in space.tiles.size && x !in space.live
      ensures 0 < space.tiles.size[x] && x + space.tiles.size[x] < |arena|
      ensures var n := x + space.tiles.size[x];
              n in space.tiles.size || (n == loUnit && loUnit != hiUnit)
    {
      hide Sound;
      hide Tiled;
      SoundBasics(space);
      var t := space.tiles;
      OwnStart(t, x);
      assert InArea(x);
      var top := t.owner[|arena| - 1];
      OwnerOf(t, |arena| - 1);
      if x < top {
        BlocksDisjoint(t, x, top);
      } else {
        assert top < x;
        BlocksDisjoint(t, top, x);
      }
      var n := x + t.size[x];
      if InArea(n) {
        NextBlock(t, x);
      } else {
        Owned(t, x, n - 1);
        assert InArea(n - 1);
      }
    }

    /** Swallows the free blocks right behind `x`, the last node of the chain. */
    method Absorb(x: nat, ghost done: seq<nat>, ghost queue: seq<nat>)
      requires done != [] && x == done[|done| - 1] && x in space.loose && Gluing(done, queue) && Settled(done, x)
      modifies `arena, `space
      ensures Settled(done, 0)
      ensures Gluing(done, queue) && SameBounds() && space.link == old(space).link
      ensures space.live == old(space).live && LiveKept(old(space), old(arena), space, arena)
    {
      hide Sound;
      LiveKeptSelf(space, arena);
      while true
        invariant Gluing(done, queue) && SameBounds() && x in space.loose && space.link == old(space).link && Settled(done, x)
        invariant space.live == old(space).live && LiveKept(old(space), old(arena), space, arena)
        decreases |space.loose|
      {
        assert LooseOk(space, arena, x, done, queue);
        SoundBasics(space);
        Behind(x);
        var node2 := x + arena[x].nu;
        if arena[node2].stamp != EMPTY_NODE {
          assert LooseOk(space, arena, node2, done, queue);
          break;
        }
        assert UseOk(space, arena, {}, node2);
        ghost var was, before := space, arena;
        JoinNext(x, node2, done, queue);
        LiveKeptTrans(old(space), old(arena), was, before, space, arena);
      }
    }

    /** Writing the headers of two free blocks touches no block in use. */
    lemma LooseWritten(s: Space, a: seq<Header>, c: seq<Header>, x: nat, y: nat)
      requires Tiled(s.tiles) && x in s.tiles.size && y in s.tiles.size && x !in s.live && y !in s.live && |a| == |c|
      requires forall u :: 0 <= u < |a| && u != x && u != y ==> c[u] == a[u]
      ensures forall u :: WriteOk(s, a, c, u)
    {
      hide Tiled;
      OwnStart(s.tiles, x);
      OwnStart(s.tiles, y);
      forall u: nat ensures WriteOk(s, a, c, u) {
      }
    }

    /** One free block joins the one before it. */
    method JoinNext(x: nat, node2: nat, ghost done: seq<nat>, ghost queue: seq<nat>)
      requires done != [] && x == done[|done| - 1] && x in space.loose && Gluing(done, queue)
      requires x in space.tiles.size && node2 == x + space.tiles.size[x] && node2 in space.loose && x != node2
      requires Settled(done, x)
      modifies `arena, `space
      ensures Settled(done, x)
      ensures Gluing(done, queue) && SameBounds() && x in space.loose && space.link == old(space).link
      ensures space.live == old(space).live && LiveKept(old(space), old(arena), space, arena)
      ensures space.loose == old(space).loose - {node2}
    {
      hide Sound;
      hide Tiled;
      hide NoDup;
      hide QueuedOk;
      hide OrderOk;
      hide EndOk;
      SoundBasics(space);
      ghost var was, before := space, arena;
      assert LooseOk(space, arena, x, done, queue) && LooseOk(space, arena, node2, done, queue);
      JoinSound(space, x);
      JoinTiled(space.tiles, x);
      arena := arena[x := arena[x].(nu := arena[x].nu + arena[node2].nu)];
      arena := arena[node2 := arena[node2].(nu := 0)];
      space := space.(tiles := Join(space.tiles, x), loose := space.loose - {node2});
      forall b: nat ensures UseOk(space, arena, {}, b) {
        assert UseOk(was, before, {}, b);
      }
      forall b | b in done && b != x ensures EndOk(space, 0, b) {
        JoinedEnds(was, space, x, 0, b);
      }
      LooseJoined(was, before, space, arena, x, node2, done, queue);
      QueuedJoined(was, before, space, arena, x, node2, done, queue);
      OrderJoined(was, space, done, queue, x, node2);
      assert TopUsed() by {
        OwnerOf(was.tiles, |arena| - 1);
      }
      LooseWritten(was, before, arena, x, node2);
      KeepsLive(was, before, space, arena);
    }

    /** Visits one node of a free list: a node not yet absorbed joins the chain and absorbs what follows it. */
    method Visit(next: nat, head: nat, prev: nat, ghost done: seq<nat>, ghost queue: seq<nat>)
      returns (head': nat, prev': nat, ghost done': seq<nat>)
      requires Gluing(done, queue) && queue != [] && next == queue[0] && Chained(head, prev, done) && Settled(done, 0)
      modifies `arena, `space
      ensures Settled(done', 0)
      ensures Gluing(done', queue[1..]) && SameBounds() && Chained(head', prev', done')
      ensures space.live == old(space).live && LiveKept(old(space), old(arena), space, arena)
      ensures forall u :: 0 <= u < |arena| && u != prev ==> arena[u].next == old(arena)[u].next
      ensures (prev == 0 || done != []) && prev !in queue
    {
      assert QueuedOk(space, arena, next, done, queue);
      assert queue == [next] + queue[1..];
      PrevOutside(head, prev, done, queue);
      if arena[next].nu != 0 {
        head', prev', done' := AppendNode(next, head, prev, done, queue);
        ghost var was, before := space, arena;
        forall b | b in done' && b != next ensures EndOk(space, 0, b) {
          assert old(QueuedOk(space, arena, b, done, queue)) && EndOk(old(space), 0, b);
        }
        Absorb(next, done', queue[1..]);
        LiveKeptTrans(old(space), old(arena), was, before, space, arena);
      } else {
        head', prev', done' := head, prev, done;
        SkipNode(next, done, queue);
        LiveKeptSelf(space, arena);
      }
    }

    /** `head` leads through `done`, the word of whose last node `prev` is yet to be written. */
    ghost predicate Chained(head: nat, prev: nat, done: seq<nat>)
      reads `arena, `space
    {
      if done == [] then head == 0 && prev == 0
      else
        && prev == done[|done| - 1] && 0 < prev < |arena| && |space.link| == |arena|
        && Linked(space.link[prev := 0], head, done)
    }

    lemma PrevOutside(head: nat, prev: nat, done: seq<nat>, queue: seq<nat>)
      requires Gluing(done, queue) && Chained(head, prev, done)
      ensures (prev == 0 || done != []) && prev !in queue
    {
      forall k | 0 <= k < |queue| ensures queue[k] != prev {
        assert QueuedOk(space, arena, queue[k], done, queue);
        assert (done + queue)[|done| + k] == queue[k];
        if done != [] {
          assert (done + queue)[|done| - 1] == prev;
        }
      }
    }

    /** An absorbed node is passed over. */
    lemma SkipNode(next: nat, done: seq<nat>, queue: seq<nat>)
      requires Gluing(done, queue) && queue != [] && next == queue[0] && next < |arena| && arena[next].nu == 0
      ensures Gluing(done, queue[1..])
    {
      hide Sound;
      hide Tiled;
      SoundBasics(space);
      assert QueuedOk(space, arena, next, done, queue) && LooseOk(space, arena, next, done, queue);
      if next in space.loose {
        OwnStart(space.tiles, next);
      }
      assert queue == [next] + queue[1..];
      forall b: nat ensures LooseOk(space, arena, b, done, queue[1..]) {
        assert LooseOk(space, arena, b, done, queue);
      }
      forall x: nat ensures QueuedOk(space, arena, x, done, queue[1..]) {
        assert QueuedOk(space, arena, x, done, queue);
      }
      NoDupDrop(done, queue);
    }

    /** A node joins the chain at its end. */
    method AppendNode(next: nat, head: nat, prev: nat, ghost done: seq<nat>, ghost queue: seq<nat>)
      returns (head': nat, prev': nat, ghost done': seq<nat>)
      requires Gluing(done, queue) && queue != [] && next == queue[0] && next < |arena| && arena[next].nu != 0
      requires Chained(head, prev, done) && prev !in queue
      modifies `arena, `space
      ensures done' == done + [next] && Gluing(done', queue[1..]) && SameBounds() && Chained(head', prev', done')
      ensures next in space.loose && space == old(space).(link := space.link)
      ensures LiveKept(old(space), old(arena), space, arena)
      ensures forall u :: 0 <= u < |arena| && u != prev ==> arena[u].next == old(arena)[u].next
    {
      hide Sound;
      hide Tiled;
      SoundBasics(space);
      ghost var was, before := space, arena;
      assert QueuedOk(space, arena, next, done, queue) && QueuedOk(space, arena, prev, done, queue);
      head', prev', done' := head, next, done + [next];
      OrderAppend(done, queue);
      if prev == 0 {
        head' := next;
        assert [next][1..] == [] && done' == [next];
        LinkedCons(space.link[next := 0], next, [next]);
      } else {
        assert (done + queue)[|done|] == next;
        NoDupPrefix(done, queue);
        LinkedSnoc(space.link, head, done, next);
        arena := arena[prev := arena[prev].(next := next)];
        space := space.(link := space.link[prev := next]);
        RelinkSound(was, prev, next);
      }
      forall j: nat, k: nat ensures OrderOk(space, done', j, k) {
        assert old(OrderOk(space, done', j, k));
      }
      assert queue == [next] + queue[1..];
      forall b: nat ensures LooseOk(space, arena, b, done', queue[1..]) {
        assert old(LooseOk(space, arena, b, done, queue));
      }
      forall x: nat ensures QueuedOk(space, arena, x, done', queue[1..]) {
        assert old(QueuedOk(space, arena, x, done, queue));
      }
      forall b: nat ensures UseOk(space, arena, {}, b) {
        assert UseOk(was, before, {}, b);
      }
      assert done + queue == done' + queue[1..];
      forall u: nat ensures WriteOk(was, before, arena, u) {
      }
      KeepsLive(was, before, space, arena);
    }

    /** A loose block is never strictly inside another one. */
    lemma OrderAppend(done: seq<nat>, queue: seq<nat>)
      requires Gluing(done, queue) && queue != [] && queue[0] in space.loose
      ensures forall j, k :: OrderOk(space, done + [queue[0]], j, k)
    {
      hide Sound;
      hide Tiled;
      SoundBasics(space);
      var x := queue[0];
      forall j: nat, k: nat ensures OrderOk(space, done + [x], j, k) {
        assert OrderOk(space, done, j, k);
        if j < k == |done| && done[j] in space.tiles.size {
          Owned(space.tiles, done[j], x);
          OwnStart(space.tiles, x);
        }
      }
    }

    /** At the start of gluing, all free blocks wait in the queue, list after list. */
    ghost method StartGluing(lists: seq<seq<nat>>)
      requires Sound(space) && space.loose == {} && LinksOf(arena, space.link) && Laid() && lists == space.lists
      requires Marked({}) && TopUsed() && (forall b :: MarkOk(space, arena, b)) && space.freeList == freeList
      requires loUnit != hiUnit ==> arena[loUnit].stamp != EMPTY_NODE
      modifies `space
      ensures |lists| == NUM_INDEXES && Gluing([], Flat(lists, 0)) && SameBounds()
      ensures Pending(space.link, freeList, lists, 0)
      ensures space == Emptied(old(space)) && LiveKept(old(space), arena, space, arena)
    {
      hide Sound;
      hide Tiled;
      hide LiveKept;
      SoundBasics(space);
      hide Flat;
      hide NoDup;
      hide Linked;
      EmptiedSound(space);
      FlatNodes(space);
      ghost var was, queue := space, Flat(lists, 0);
      space := Emptied(space);
      KeepsLive(was, arena, space, arena);
      assert [] + queue == queue;
      forall b: nat ensures UseOk(space, arena, {}, b) {
        assert UseOk(was, arena, {}, b);
      }
      AllQueued(was, arena, queue);
      hide LooseOk;
      hide QueuedOk;
      forall j: nat | j < NUM_INDEXES ensures Linked(space.link, freeList[j], lists[j]) {
        ListAt(was, j);
      }
    }

    /** The guard at the start of the gap: it stops every run of free blocks that reaches the gap. */
    method Guard()
      requires Struct() && Marked({}) && loUnit != hiUnit
      modifies `arena
      ensures Struct() && Marked({}) && SameBounds() && arena[loUnit].stamp != EMPTY_NODE
      ensures LiveKept(space, old(arena), space, arena)
    {
      hide Sound;
      hide Tiled;
      SoundBasics(space);
      arena := arena[loUnit := arena[loUnit].(stamp := 0)];
      assert !InArea(loUnit);
      if loUnit in space.tiles.size {
        OwnStart(space.tiles, loUnit);
      }
      forall b: nat ensures UseOk(space, arena, {}, b) {
        assert UseOk(space, old(arena), {}, b);
      }
      forall b: nat ensures MarkOk(space, arena, b) {
        assert MarkOk(space, old(arena), b);
      }
      forall u: nat ensures WriteOk(space, old(arena), arena, u) {
      }
      KeepsLive(space, old(arena), space, arena);
    }

    /** All nodes of one free list are visited. */
    method CollectList(i: nat, ghost lists: seq<seq<nat>>, head: nat, prev: nat, ghost done: seq<nat>)
      returns (head': nat, prev': nat, ghost done': seq<nat>)
      requires i < NUM_INDEXES == |freeList| == |lists| && Gluing(done, Flat(lists, i)) && Chained(head, prev, done)
      requires Pending(space.link, freeList, lists, i) && Settled(done, 0)
      modifies `arena, `freeList, `space
      ensures Settled(done', 0)
      ensures Gluing(done', Flat(lists, i + 1)) && Chained(head', prev', done') && SameBounds()
      ensures Pending(space.link, freeList, lists, i + 1)
      ensures freeList == old(freeList)[i := 0] && space.live == old(space).live
      ensures LiveKept(old(space), old(arena), space, arena)
    {
      hide LiveKept;
      hide EndOk;
      hide LooseOk;
      hide QueuedOk;
      hide OrderOk;
      hide Sound;
      hide Tiled;
      PendingNext(space.link, freeList, lists, i);
      hide Pending;
      var next := freeList[i];
      freeList := freeList[i := 0];
      ghost var rest, tail := lists[i], Flat(lists, i + 1);
      head', prev', done' := head, prev, done;
      LiveKeptSelf(space, arena);
      while next != 0
        invariant Gluing(done', rest + tail) && Chained(head', prev', done') && SameBounds() && Settled(done', 0)
        invariant Linked(space.link, next, rest) && freeList == old(freeList)[i := 0]
        invariant Pending(space.link, freeList, lists, i + 1)
        invariant space.live == old(space).live && LiveKept(old(space), old(arena), space, arena)
        decreases |rest|
      {
        ghost var was, before, queue, prev0 := space, arena, rest + tail, prev';
        assert next == queue[0] && queue[1..] == rest[1..] + tail;
        head', prev', done' := Visit(next, head', prev', done', queue);
        LiveKeptTrans(old(space), old(arena), was, before, space, arena);
        LinkedOther(was.link, space.link, was.link[next], rest[1..], prev0);
        PendingStays(was.link, space.link, freeList, lists, i + 1, prev0);
        next := arena[next].next;
        rest := rest[1..];
      }
      assert rest == [];
      assert rest + tail == tail;
    }

    /** The chain is closed. */
    method LastNode(head: nat, prev: nat, ghost done: seq<nat>)
      requires Gluing(done, []) && Chained(head, prev, done) && Settled(done, 0)
      modifies `arena, `space
      ensures space == old(space).(link := space.link) && Settled(done, 0)
      ensures Gluing(done, []) && Linked(space.link, head, done) && SameBounds()
      ensures space.live == old(space).live && LiveKept(old(space), old(arena), space, arena)
    {
      hide Sound;
      hide Tiled;
      hide LiveKept;
      SoundBasics(space);
      LiveKeptSelf(space, arena);
      if prev != 0 {
        ghost var was, before := space, arena;
        assert QueuedOk(space, arena, prev, done, []);
        arena := arena[prev := arena[prev].(next := 0)];
        space := space.(link := space.link[prev := 0]);
        RelinkSound(was, prev, 0);
        forall j: nat, k: nat ensures OrderOk(space, done, j, k) {
          assert old(OrderOk(space, done, j, k));
        }
        forall b: nat ensures LooseOk(space, arena, b, done, []) {
          assert old(LooseOk(space, arena, b, done, []));
        }
        forall x: nat ensures QueuedOk(space, arena, x, done, []) {
          assert old(QueuedOk(space, arena, x, done, []));
        }
        forall b: nat ensures UseOk(space, arena, {}, b) {
          assert UseOk(was, before, {}, b);
        }
        forall u: nat ensures WriteOk(was, before, arena, u) {
        }
        KeepsLive(was, before, space, arena);
      }
      assert LiveKept(old(space), old(arena), space, arena);
    }

    lemma NothingMet()
      ensures Chained(0, 0, []) && Settled([], 0)
    {
    }

    /** First part of GlueFreeBlocks: empties the lists, joining free neighbours; the blocks met are chained. */
    method CollectFree() returns (head: nat, ghost done: seq<nat>)
      requires Struct() && Counted() && Marked({}) && TopUsed() && space.loose == {}
      modifies `arena, `freeList, `stamps, `glueCount, `space
      ensures Gluing(done, []) && Linked(space.link, head, done) && glueCount == 0x2000
      ensures forall b :: EndOk(space, 0, b)
      ensures |arena| == |old(arena)| && space.live == old(space).live
      ensures LiveKept(old(space), old(arena), space, arena)
      ensures freeList == seq(NUM_INDEXES, _ => 0) && stamps == freeList
    {
      hide Sound;
      hide Linked;
      hide LiveKept;
      hide Gluing;
      hide Flat;
      hide Pending;
      hide EndOk;
      SoundBasics(space);
      LiveKeptSelf(space, arena);
      glueCount := 0x2000;
      stamps := seq(NUM_INDEXES, _ => 0);
      ghost var zeros := stamps;
      if loUnit != hiUnit {
        Guard();
      }
      assert LiveKept(old(space), old(arena), space, arena);
      ghost var lists := space.lists;
      ghost var was, before := space, arena;
      StartGluing(lists);
      LiveKeptTrans(old(space), old(arena), was, before, space, arena);
      head, done := 0, [];
      NothingMet();
      hide Chained;
      hide Settled;
      var prev, i := 0, 0;
      while i < NUM_INDEXES
        invariant i <= NUM_INDEXES == |lists| == |freeList|
        invariant Gluing(done, Flat(lists, i)) && Chained(head, prev, done) && Settled(done, 0)
        invariant Pending(space.link, freeList, lists, i)
        invariant forall j :: 0 <= j < i ==> freeList[j] == 0
        invariant glueCount == 0x2000 && |arena| == |old(arena)| && space.live == old(space).live
        invariant LiveKept(old(space), old(arena), space, arena) && stamps == zeros
      {
        was, before := space, arena;
        head, prev, done := CollectList(i, lists, head, prev, done);
        LiveKeptTrans(old(space), old(arena), was, before, space, arena);
        i := i + 1;
      }
      EmptyFlat(lists);
      was, before := space, arena;
      LastNode(head, prev, done);
      LiveKeptTrans(old(space), old(arena), was, before, space, arena);
      AllSettled(done);
    }

    lemma AllSettled(done: seq<nat>)
      requires Gluing(done, []) && Settled(done, 0)
      ensures forall b :: EndOk(space, 0, b)
    {
      forall b: nat ensures EndOk(space, 0, b) {
        assert LooseOk(space, arena, b, done, []);
        if b in done {
          assert QueuedOk(space, arena, b, done, []);
        }
      }
    }

    // ---------- filing the glued blocks ----------

    /** A piece of 128 units goes to the last list; the others are still to be filed. */
    method FileRow(p: nat, nu: nat)
      requires Struct() && Counted() && p in space.loose && p < |arena| && p in space.tiles.size && space.tiles.size[p] == nu > 128
      modifies `arena, `freeList, `stamps, `space
      ensures Struct() && Counted() && SameBounds() && FiledLists(space.lists, p + 128, nu - 128) == FiledLists(old(space).lists, p, nu)
      ensures space.live == old(space).live && space.loose == old(space).loose - {p} + {p + 128}
      ensures KeptBut(old(space).tiles, space.tiles, p) && p in space.tiles.size && space.tiles.size[p] == 128
      ensures p + 128 in space.tiles.size && space.tiles.size[p + 128] == nu - 128 && p + 128 < |arena|
      ensures p + 128 !in old(space).tiles.size
      ensures forall u :: 0 <= u < |arena| && u != p ==> arena[u] == old(arena)[u]
    {
      hide Sound;
      hide Tiled;
      SoundBasics(space);
      CutLoose(p, 128);
      InsertNode(p, NUM_INDEXES - 1);
      SoundBasics(space);
    }

    /** Puts a glued block on the lists, in pieces of 128 units and a remainder. */
    method FileBlock(node: nat)
      requires Struct() && Counted() && node in space.loose && node < |arena|
      requires node in space.tiles.size && arena[node].nu == space.tiles.size[node] && 1 <= arena[node].nu
      modifies `arena, `freeList, `stamps, `space
      ensures Struct() && Counted() && SameBounds()
      ensures space.lists == FiledLists(old(space).lists, node, old(space).tiles.size[node])
      ensures Pieces(space.tiles, node, node + old(space).tiles.size[node])
      ensures space.live == old(space).live && space.loose == old(space).loose - {node}
      ensures KeptBut(old(space).tiles, space.tiles, node)
      ensures forall u :: 0 <= u < |arena| && !(node <= u < node + old(space).tiles.size[node]) ==>
                arena[u] == old(arena)[u]
    {
      hide Sound;
      hide Tiled;
      hide Pieces;
      hide Rows;
      hide FiledLists;
      SoundBasics(space);
      var p, nu := node, arena[node].nu;
      NoRows(space.tiles, node);
      while nu > 128
        invariant 1 <= nu && node <= p < |arena| && p + nu == node + old(space).tiles.size[node]
        invariant Struct() && Counted() && SameBounds() && Rows(space.tiles, node, p)
        invariant FiledLists(space.lists, p, nu) == FiledLists(old(space).lists, node, old(space).tiles.size[node])
        invariant space.live == old(space).live && space.loose == old(space).loose - {node} + {p}
        invariant KeptBut(old(space).tiles, space.tiles, node) && p in space.tiles.size && space.tiles.size[p] == nu
        invariant p == node || (p !in old(space).tiles.size && p !in old(space).loose)
        invariant forall u :: 0 <= u < |arena| && !(node <= u < p) ==> arena[u] == old(arena)[u]
      {
        ghost var t := space.tiles;
        SoundBasics(space);
        FileRow(p, nu);
        SoundBasics(space);
        NextRow(t, space.tiles, node, p);
        p, nu := p + 128, nu - 128;
      }
      ghost var t := space.tiles;
      SoundBasics(space);
      InsertUnits(p, nu);
      SoundBasics(space);
      RowsAndPieces(t, space.tiles, node, p, p + nu);
    }

    lemma StartFiling(done: seq<nat>)
      requires Gluing(done, [])
      ensures Filing(space, arena, done)
    {
      hide Sound;
      hide Tiled;
      SoundBasics(space);
      assert done + [] == done;
      forall b: nat ensures FileOk(space, arena, done, b) {
        assert LooseOk(space, arena, b, done, []);
      }
      forall x: nat ensures RestOk(space, arena, done, x) {
        assert QueuedOk(space, arena, x, done, []);
      }
    }

    /** Files the first node of the chain, unless it was absorbed. */
    method FileNext(node: nat, ghost rest: seq<nat>)
      requires Struct() && Counted() && Marked({}) && Filing(space, arena, rest) && rest != [] && node == rest[0]
      requires node < |arena| && Linked(space.link, arena[node].next, rest[1..]) && Tidy(space, 0)
      modifies `arena, `freeList, `stamps, `space
      ensures Tidy(space, 0)
      ensures Struct() && Counted() && Marked({}) && SameBounds() && Filing(space, arena, rest[1..])
      ensures Linked(space.link, old(arena[node].next), rest[1..])
      ensures space.live == old(space).live && LiveKept(old(space), old(arena), space, arena)
    {
      hide Sound;
      hide Tiled;
      hide Tidy;
      hide Pieces;
      hide FiledLists;
      SoundBasics(space);
      LiveKeptSelf(space, arena);
      assert rest == [node] + rest[1..];
      assert RestOk(space, arena, rest, node) && FileOk(space, arena, rest, node);
      ghost var was, before := space, arena;
      if arena[node].nu != 0 {
        FileBlock(node);
        FiledTidy(was, space, 0, node);
        forall u: nat ensures WriteOk(was, before, arena, u) {
          Owned(was.tiles, node, u);
        }
        KeepsLive(was, before, space, arena);
        forall b: nat ensures UseOk(space, arena, {}, b) {
          assert UseOk(was, before, {}, b) && LiveBlockKept(was, before, space, arena, b);
          if b in space.live {
            OwnStart(was.tiles, b);
          }
        }
      } else if node in space.loose {
        OwnStart(space.tiles, node);
      }
      FiledRest(rest, was, before, space, arena);
    }

    /** Between two operations: nothing is loose, counts agree, and blocks in use outside `but` do not look empty. */
    ghost predicate Valid(but: set<nat>)
      reads `arena, `freeList, `stamps, `text, `unitsStart, `loUnit, `hiUnit, `space
    {
      Struct() && Counted() && Marked(but) && TopUsed() && space.loose == {}
    }

    /** With all lists empty there is nothing to count. */
    lemma AllCollected(done: seq<nat>)
      requires Gluing(done, []) && freeList == seq(NUM_INDEXES, _ => 0) && stamps == freeList
      ensures Struct() && Counted()
    {
      hide Sound;
      SoundBasics(space);
      forall b: nat ensures MarkOk(space, arena, b) {
      }
    }

    lemma GluedTidy(done: seq<nat>)
      requires Gluing(done, []) && forall b :: EndOk(space, 0, b)
      ensures Tidy(space, 0)
    {
      hide Sound;
      StartTidy(space, 0);
    }

    lemma FiledRuns()
      requires Tidy(space, 0) && space.loose == {}
      ensures forall b :: RunOk(space, 0, b)
    {
      forall b: nat ensures RunOk(space, 0, b) {
        assert TidyAt(space, 0, b);
        NoLongFree(space, b);
      }
    }

    /**
      Joins free neighbours and files the results. It ends, changes neither what is in use nor what is free, and leaves
      no three free blocks in a row unless the first one has 128 units.
     */
    method GlueFreeBlocks()
      requires Valid({})
      modifies `arena, `freeList, `stamps, `glueCount, `space
      ensures forall b :: RunOk(space, 0, b)
      ensures Valid({}) && glueCount == 0x2000 && |arena| == |old(arena)|
      ensures space.live == old(space).live && LiveKept(old(space), old(arena), space, arena)
      ensures Unused(space) == Unused(old(space))
    {
      hide Sound;
      hide Gluing;
      hide LiveKept;
      hide Filing;
      hide Tidy;
      var head;
      ghost var rest;
      head, rest := CollectFree();
      AllCollected(rest);
      StartFiling(rest);
      GluedTidy(rest);
      GluingMarked(rest);
      while head != 0
        invariant Struct() && Counted() && Marked({}) && Filing(space, arena, rest) && Linked(space.link, head, rest)
        invariant Tidy(space, 0)
        invariant glueCount == 0x2000 && |arena| == |old(arena)| && space.live == old(space).live
        invariant LiveKept(old(space), old(arena), space, arena)
        decreases |rest|
      {
        var node := head;
        head := arena[node].next;
        ghost var was, before := space, arena;
        FileNext(node, rest);
        LiveKeptTrans(old(space), old(arena), was, before, space, arena);
        rest := rest[1..];
      }
      NothingLeft(rest);
      FiledRuns();
      SameUnused(old(space), old(arena), space, arena);
      SoundBasics(old(space));
      SoundBasics(space);
      OwnerKept(old(space), old(arena), space, arena, |arena| - 1);
    }

    lemma GluingMarked(done: seq<nat>)
      requires Gluing(done, [])
      ensures Marked({})
    {
    }

    lemma NothingLeft(rest: seq<nat>)
      requires Filing(space, arena, rest) && rest == []
      ensures space.loose == {}
    {
      forall b: nat ensures b !in space.loose {
        assert FileOk(space, arena, rest, b);
      }
    }

    // ---------- taking blocks ----------

    /** What an operation establishes that keeps all blocks in use and adds those in `more`. */
    twostate lemma StaysValid(more: set<nat>)
      requires old(Valid({})) && Struct() && Counted() && space.loose == {} && |arena| == |old(arena)|
      requires space.live == old(space).live + more && LiveKept(old(space), old(arena), space, arena)
      ensures Valid(more)
    {
      hide Sound;
      SoundBasics(old(space));
      SoundBasics(space);
      OwnerKept(old(space), old(arena), space, arena, |arena| - 1);
      MarksKept(old(space), old(arena), space, arena, {}, more);
      assert {} + more == more;
    }

    /** The same when the blocks in `gone` are given up, and those in `but` were not yet written. */
    lemma LosesAndGains(s: Space, a: seq<Header>, but: set<nat>, gone: set<nat>, more: set<nat>)
      requires Sound(s) && (forall b :: UseOk(s, a, but, b)) && |a| == |arena| > 0 && Struct() && Counted()
      requires |a| - 1 in s.tiles.owner && s.tiles.owner[|a| - 1] in s.live - gone
      requires space.loose == {} && space.live == s.live - gone + more
      requires LiveKept(Without(s, gone), a, space, arena)
      ensures Valid(but - gone + more)
    {
      hide Sound;
      SoundBasics(s);
      SoundBasics(space);
      ghost var r := Without(s, gone);
      OwnerKept(r, a, space, arena, |a| - 1);
      forall b: nat ensures UseOk(r, a, but, b) {
        assert UseOk(s, a, but, b);
      }
      MarksKept(r, a, space, arena, but, more);
      forall b: nat ensures UseOk(space, arena, but - gone + more, b) {
        assert UseOk(space, arena, but + more, b);
      }
    }

    /** A block of `nu` units was found for the caller, or (when `node` is null) none was. */
    twostate predicate Taken(node: nat, nu: nat)
      reads `arena, `freeList, `stamps, `text, `unitsStart, `loUnit, `hiUnit, `space
    {
      && |arena| == |old(arena)| && text == old(text) && LiveKept(old(space), old(arena), space, arena)
      && if node == 0 then Valid({}) && space.live == old(space).live else
           && Valid({node}) && node !in old(space).live && space.live == old(space).live + {node}
           && node in space.tiles.size && space.tiles.size[node] == nu
    }

    /** Cuts the tail off a block held, and puts it on the lists. */
    method SplitBlock(ptr: nat, oldIndx: nat, newIndx: nat)
      requires Struct() && Counted() && ptr in space.loose && newIndx < oldIndx < NUM_INDEXES
      requires space.tiles.size[ptr] == I2U(oldIndx)
      modifies `arena, `freeList, `stamps, `space
      ensures Struct() && Counted() && SameBounds()
      ensures space.live == old(space).live && space.loose == old(space).loose
      ensures KeptBut(old(space).tiles, space.tiles, ptr)
      ensures ptr in space.tiles.size && space.tiles.size[ptr] == I2U(newIndx)
      ensures space.lists == FiledLists(old(space).lists, ptr + I2U(newIndx), I2U(oldIndx) - I2U(newIndx))
      ensures forall u :: 0 <= u < |arena| && !(ptr + I2U(newIndx) <= u < ptr + I2U(oldIndx)) ==>
                arena[u] == old(arena)[u]
    {
      hide Sound;
      SoundBasics(space);
      var nu := I2U(oldIndx) - I2U(newIndx);
      CutLoose(ptr, I2U(newIndx));
      InsertUnits(ptr + I2U(newIndx), nu);
    }

    method TakeListed(indx: nat) returns (retVal: nat)
      requires Valid({}) && indx < NUM_INDEXES && indx < |freeList| && freeList[indx] != 0
      modifies `freeList, `stamps, `space
      ensures retVal != 0 && Taken(retVal, I2U(indx))
      ensures retVal == old(freeList)[indx] && space.lists == Popped(old(space).lists, indx)
    {
      hide Sound;
      retVal := RemoveNode(indx);
      ghost var was := space;
      TakeSound(space, retVal);
      space := space.(live := space.live + {retVal}, loose := space.loose - {retVal});
      forall b: nat ensures MarkOk(space, arena, b) {
        assert MarkOk(was, arena, b);
      }
      KeepsLive(old(space), arena, space, arena);
      StaysValid({retVal});
    }

    /** Bookkeeping only: the one block held goes into use. */
    ghost method Give(node: nat)
      requires Struct() && Counted() && space.loose == {node}
      modifies `space
      ensures Struct() && Counted() && space == old(space).(live := old(space).live + {node}, loose := {})
    {
      hide Sound;
      ghost var was := space;
      TakeSound(space, node);
      space := space.(live := space.live + {node}, loose := {});
      assert was.loose - {node} == {};
      forall b: nat ensures MarkOk(space, arena, b) {
        assert MarkOk(was, arena, b);
      }
    }

    method TakeSplit(i: nat, indx: nat) returns (retVal: nat)
      requires Valid({}) && indx < i < NUM_INDEXES && i < |freeList| && freeList[i] != 0
      modifies `arena, `freeList, `stamps, `space
      ensures retVal != 0 && Taken(retVal, I2U(indx))
      ensures retVal == old(freeList)[i]
      ensures space.lists == FiledLists(Popped(old(space).lists, i), retVal + I2U(indx), I2U(i) - I2U(indx))
    {
      hide Sound;
      SoundBasics(space);
      retVal := RemoveNode(i);
      ghost var was := space;
      SplitBlock(retVal, i, indx);
      Give(retVal);
      forall u: nat ensures WriteOk(old(space), old(arena), arena, u) {
        SoundBasics(was);
        Owned(was.tiles, retVal, u);
      }
      KeepsLive(old(space), old(arena), space, arena);
      StaysValid({retVal});
    }

    /** New blocks: a block on units that no block owns so far is put into use. */
    ghost method AddBlock(b: nat, k: nat)
      requires Sound(space) && LinksOf(arena, space.link) && space.freeList == freeList && Counted()
      requires (forall c :: MarkOk(space, arena, c)) && space.loose == {} && 0 < k && 0 < b < |arena|
      requires forall u :: u in space.tiles.owner ==> !(b <= u < b + k)
      modifies `space
      ensures Sound(space) && LinksOf(arena, space.link) && space.freeList == freeList && Counted()
      ensures (forall c :: MarkOk(space, arena, c)) && space.loose == {} && b !in old(space).live
      ensures space.live == old(space).live + {b} && b in space.tiles.size && space.tiles.size[b] == k
      ensures forall u :: u in space.tiles.owner <==> u in old(space).tiles.owner || b <= u < b + k
      ensures LiveKept(old(space), arena, space, arena) && space.lists == old(space).lists
    {
      hide Sound;
      hide Tiled;
      hide LiveKept;
      SoundBasics(space);
      ghost var was := space;
      AddSound(space, b, k);
      space := space.(tiles := Add(space.tiles, b, k), live := space.live + {b});
      forall c: nat ensures MarkOk(space, arena, c) {
        assert MarkOk(was, arena, c);
      }
      forall u: nat ensures u in space.tiles.owner <==> u in was.tiles.owner || b <= u < b + k {
        assert Within(b, k, u) <==> b <= u < b + k;
      }
      KeepsLive(was, arena, space, arena);
    }

    /** Takes units from the start of the gap. */
    method TakeLow(nu: nat) returns (retVal: nat)
      requires Valid({}) && 1 <= nu && UNIT_SIZE * nu <= UNIT_SIZE * (hiUnit - loUnit)
      modifies `loUnit, `space
      ensures retVal != 0 && Taken(retVal, nu)
      ensures retVal == old(loUnit) && loUnit == retVal + nu && space.lists == old(space).lists
    {
      hide Sound;
      hide LiveKept;
      retVal := loUnit;
      loUnit := loUnit + nu;
      AddBlock(retVal, nu);
      StaysValid({retVal});
    }

    /** Takes the last unit of the gap. */
    method TakeHigh() returns (retVal: nat)
      requires Valid({}) && hiUnit != loUnit
      modifies `hiUnit, `space
      ensures retVal != 0 && Taken(retVal, 1)
      ensures retVal + 1 == old(hiUnit) && hiUnit == retVal && space.lists == old(space).lists
    {
      hide Sound;
      hide LiveKept;
      hiUnit := hiUnit - 1;
      retVal := hiUnit;
      AddBlock(retVal, 1);
      StaysValid({retVal});
    }

    /** Takes units from the end of the text area. */
    method TakeText(nu: nat) returns (retVal: nat)
      requires Valid({}) && 1 <= nu && UNIT_SIZE * unitsStart - text > UNIT_SIZE * nu
      modifies `unitsStart, `space
      ensures retVal != 0 && Taken(retVal, nu)
      ensures retVal + nu == old(unitsStart) && unitsStart == retVal && space.lists == old(space).lists
    {
      hide Sound;
      hide LiveKept;
      unitsStart := unitsStart - nu;
      retVal := unitsStart;
      AddBlock(retVal, nu);
      StaysValid({retVal});
    }

    /** No list from `indx` on has a block. */
    ghost predicate NoneFrom(indx: nat)
      reads `freeList
    {
      forall j :: indx <= j < |freeList| ==> freeList[j] == 0
    }

    /**
      Without gluing: the head of the next list that has a block, what is left of it going back to the lists; or, if all
      are empty, units from the end of the text area, as long as there is more room than that.
     */
    twostate predicate Rarely(indx: nat, node: nat)
      reads `freeList, `glueCount, `unitsStart, `space
    {
      var i := FirstFrom(old(freeList), indx);
      if i < |old(freeList)| then
        && node == old(freeList)[i] && glueCount == old(glueCount) && unitsStart == old(unitsStart)
        && I2U(indx) <= I2U(i)
        && space.lists == FiledLists(Popped(old(space).lists, i), node + I2U(indx), I2U(i) - I2U(indx))
      else
        && glueCount == old(glueCount) - 1 && space.lists == old(space).lists
        && if UNIT_SIZE * old(unitsStart) - old(text) > UNIT_SIZE * I2U(indx) then
             node + I2U(indx) == old(unitsStart) && unitsStart == node
           else node == 0 && unitsStart == old(unitsStart)
    }

    /** When a list is empty: joins free neighbours when due, then takes a larger block, or units of the text area. */
    method AllocUnitsRare(indx: nat) returns (retVal: nat)
      requires Valid({}) && indx < NUM_INDEXES && indx < |freeList| && freeList[indx] == 0
      modifies `arena, `freeList, `stamps, `glueCount, `unitsStart, `space
      ensures Taken(retVal, I2U(indx))
      ensures retVal == 0 ==> NoneFrom(indx) && UNIT_SIZE * unitsStart - text <= UNIT_SIZE * I2U(indx)
      ensures old(glueCount) != 0 ==> Rarely(indx, retVal)
    {
      hide Sound;
      hide LiveKept;
      hide FiledLists;
      hide Popped;
      SoundBasics(space);
      LiveKeptSelf(space, arena);
      if glueCount == 0 {
        GlueFreeBlocks();
        SoundBasics(space);
        if freeList[indx] != 0 {
          ghost var was, before := space, arena;
          retVal := TakeListed(indx);
          LiveKeptTrans(old(space), old(arena), was, before, space, arena);
          return;
        }
      }
      var i := indx;
      while true
        invariant indx <= i < NUM_INDEXES == |freeList| && forall j :: indx <= j <= i ==> freeList[j] == 0
        decreases NUM_INDEXES - i
      {
        i := i + 1;
        if i == NUM_INDEXES || freeList[i] != 0 {
          break;
        }
      }
      ghost var was, before := space, arena;
      if i == NUM_INDEXES {
        retVal := 0;
        glueCount := glueCount - 1;
        if UNIT_SIZE * unitsStart - text > UNIT_SIZE * I2U(indx) {
          retVal := TakeText(I2U(indx));
          LiveKeptTrans(old(space), old(arena), was, before, space, arena);
        }
      } else {
        retVal := TakeSplit(i, indx);
        LiveKeptTrans(old(space), old(arena), was, before, space, arena);
      }
    }

    /** The head of the list, which goes on without it. */
    twostate predicate Listed(indx: nat, node: nat)
      reads `freeList, `unitsStart, `space
    {
      && indx < |old(freeList)| && node == old(freeList)[indx]
      && space.lists == Popped(old(space).lists, indx) && unitsStart == old(unitsStart)
    }

    /** A block of class `indx`, from its list, the gap, or wherever else one can be had. */
    method AllocUnits(indx: nat) returns (retVal: nat)
      requires Valid({}) && indx < NUM_INDEXES
      modifies `arena, `freeList, `stamps, `glueCount, `unitsStart, `loUnit, `space
      ensures Taken(retVal, I2U(indx))
      ensures retVal == 0 ==> NoneFrom(indx) && UNIT_SIZE * (hiUnit - loUnit) < UNIT_SIZE * I2U(indx)
      ensures retVal == 0 ==> UNIT_SIZE * unitsStart - text <= UNIT_SIZE * I2U(indx)
      ensures |old(freeList)| == NUM_INDEXES
      ensures old(freeList)[indx] != 0 ==> Listed(indx, retVal) && loUnit == old(loUnit)
      ensures old(freeList)[indx] == 0 && UNIT_SIZE * I2U(indx) <= UNIT_SIZE * (old(hiUnit) - old(loUnit)) ==>
                && retVal == old(loUnit) && loUnit == retVal + I2U(indx)
                && space.lists == old(space).lists && unitsStart == old(unitsStart)
      ensures old(freeList)[indx] == 0 && UNIT_SIZE * (old(hiUnit) - old(loUnit)) < UNIT_SIZE * I2U(indx) ==>
                loUnit == old(loUnit) && (old(glueCount) != 0 ==> Rarely(indx, retVal))
    {
      hide Sound;
      hide FiledLists;
      hide FirstFrom;
      SoundBasics(space);
      ClassOfOwnSize(indx);
      if freeList[indx] != 0 {
        retVal := TakeListed(indx);
      } else if UNIT_SIZE * I2U(indx) <= UNIT_SIZE * (hiUnit - loUnit) {
        retVal := TakeLow(I2U(indx));
      } else {
        retVal := AllocUnitsRare(indx);
      }
    }

    /** A unit for a new context, taken from the high end of the gap first. */
    method AllocContext() returns (retVal: nat)
      requires Valid({})
      modifies `arena, `freeList, `stamps, `glueCount, `unitsStart, `hiUnit, `space
      ensures Taken(retVal, 1)
      ensures retVal == 0 ==> NoneFrom(0) && hiUnit == loUnit && UNIT_SIZE * unitsStart - text <= UNIT_SIZE
      ensures |old(freeList)| == NUM_INDEXES
      ensures old(hiUnit) != old(loUnit) ==>
                && retVal + 1 == old(hiUnit) && hiUnit == retVal
                && space.lists == old(space).lists && unitsStart == old(unitsStart)
      ensures old(hiUnit) == old(loUnit) && old(freeList)[0] != 0 ==> Listed(0, retVal) && hiUnit == old(hiUnit)
      ensures old(hiUnit) == old(loUnit) && old(freeList)[0] == 0 ==>
                hiUnit == old(hiUnit) && (old(glueCount) != 0 ==> Rarely(0, retVal))
    {
      hide Sound;
      hide FiledLists;
      hide FirstFrom;
      SoundBasics(space);
      if hiUnit != loUnit {
        retVal := TakeHigh();
      } else if freeList[0] != 0 {
        retVal := TakeListed(0);
      } else {
        retVal := AllocUnitsRare(0);
      }
    }

    // ---------- writing, moving and freeing blocks in use ----------

    /** The caller writes a unit of a block it uses; the first word of a block in use is never the empty mark. */
    method Store(b: nat, u: nat, h: Header, ghost but: set<nat>)
      requires Valid(but) && b in space.live && b in space.tiles.size && b <= u < b + space.tiles.size[b]
      requires u < |arena| && (u == b ==> h.stamp != EMPTY_NODE)
      modifies `arena, `space
      ensures Valid(if u == b then but - {b} else but) && SameBounds()
      ensures arena == old(arena)[u := h] && space == old(space).(link := space.link)
    {
      hide Sound;
      hide Tiled;
      SoundBasics(space);
      Owned(space.tiles, b, u);
      Poke(u, h);
      ghost var left := if u == b then but - {b} else but;
      forall c: nat ensures UseOk(space, arena, left, c) {
        assert old(UseOk(space, arena, but, c));
        if c in space.live {
          OwnStart(space.tiles, c);
        }
      }
    }

    /** A unit of a block that is on no list is written. */
    method Poke(u: nat, h: Header)
      requires Struct() && Counted() && u < |arena|
      requires u in space.tiles.owner && (space.tiles.owner[u] in space.live || space.tiles.owner[u] in space.loose)
      modifies `arena, `space
      ensures Struct() && Counted() && SameBounds() && arena == old(arena)[u := h]
      ensures space == old(space).(link := space.link)
    {
      hide Sound;
      hide Tiled;
      SoundBasics(space);
      if u in space.tiles.size {
        OwnStart(space.tiles, u);
      }
      PokeSound(space, u, h.next);
      ghost var was := space;
      arena := arena[u := h];
      space := space.(link := space.link[u := h.next]);
      forall b: nat ensures MarkOk(space, arena, b) {
        assert MarkOk(was, old(arena), b);
      }
    }

    /** Bookkeeping only: a block in use is given up. */
    ghost method Release(ptr: nat)
      requires Struct() && Counted() && ptr in space.live && ptr < |arena|
      modifies `space
      ensures Struct() && Counted()
      ensures space == old(space).(live := old(space).live - {ptr}, loose := old(space).loose + {ptr})
    {
      hide Sound;
      SoundBasics(space);
      ghost var was := space;
      ReleaseSound(space, ptr);
      space := space.(live := space.live - {ptr}, loose := space.loose + {ptr});
      forall b: nat ensures MarkOk(space, arena, b) {
        assert MarkOk(was, arena, b);
      }
    }

    /** What is left when a block in use, not the topmost one, is given up. */
    twostate predicate Freed(ptr: nat, but: set<nat>)
      reads `arena, `freeList, `stamps, `text, `unitsStart, `loUnit, `hiUnit, `space
    {
      && Valid(but - {ptr}) && |arena| == |old(arena)| && text == old(text)
      && space.live == old(space).live - {ptr}
      && LiveKept(Without(old(space), {ptr}), old(arena), space, arena)
    }

    method FreeUnits(ptr: nat, nu: nat, ghost but: set<nat>)
      requires Valid(but) && 1 <= nu <= 128 && ptr in space.live && ptr in space.tiles.size
      requires space.tiles.size[ptr] == I2U(U2I(nu)) && Top(space, |arena|) != ptr
      modifies `arena, `freeList, `stamps, `space
      ensures Freed(ptr, but) && space.lists == Front(old(space).lists, U2I(nu), ptr) && space.tiles == old(space).tiles
    {
      hide Sound;
      SoundBasics(space);
      SmallestClass(nu, 0);
      LiveKeptSelf(space, arena);
      ghost var was := space;
      FreeOne(ptr, U2I(nu));
      LosesAndGains(old(space), old(arena), but, {ptr}, {});
      assert but - {ptr} + {} == but - {ptr};
    }

    /** A block in use goes to the list of its class. */
    method FreeOne(ptr: nat, indx: nat)
      requires Struct() && Counted() && indx < NUM_INDEXES && ptr in space.live && ptr in space.tiles.size
      requires space.tiles.size[ptr] == I2U(indx) && ptr !in space.loose
      modifies `arena, `freeList, `stamps, `space
      ensures Struct() && Counted() && SameBounds()
      ensures space.loose == old(space).loose && space.live == old(space).live - {ptr} && space.tiles == old(space).tiles
      ensures space.lists == Front(old(space).lists, indx, ptr)
      ensures LiveKept(Without(old(space), {ptr}), old(arena), space, arena)
      ensures forall u :: 0 <= u < |arena| && u != ptr ==> arena[u] == old(arena)[u]
    {
      hide Sound;
      hide Tiled;
      SoundBasics(space);
      HomeOf(space, ptr);
      Release(ptr);
      InsertNode(ptr, indx);
      ghost var s := Without(old(space), {ptr});
      forall u: nat ensures WriteOk(s, old(arena), arena, u) {
        OwnStart(s.tiles, ptr);
      }
      KeepsLive(s, old(arena), space, arena);
    }

    /** Two blocks have no unit in common. */
    lemma FarApart(dest: nat, src: nat)
      requires Struct() && dest != src && dest in space.tiles.size && src in space.tiles.size
      ensures dest + space.tiles.size[dest] <= src || src + space.tiles.size[src] <= dest
      ensures dest + space.tiles.size[dest] <= |arena| && src + space.tiles.size[src] <= |arena|
    {
      hide Sound;
      hide Tiled;
      SoundBasics(space);
      OwnStart(space.tiles, dest);
      OwnStart(space.tiles, src);
      Owned(space.tiles, dest, dest + space.tiles.size[dest] - 1);
      Owned(space.tiles, src, src + space.tiles.size[src] - 1);
      if dest < src {
        BlocksDisjoint(space.tiles, dest, src);
      } else {
        BlocksDisjoint(space.tiles, src, dest);
      }
    }

    /** One unit is copied. */
    method CopyUnit(ghost dest: nat, ghost src: nat, d: nat, z: nat)
      requires Struct() && Counted() && dest in space.tiles.size && (dest in space.live || dest in space.loose)
      requires src in space.tiles.size && dest <= d < dest + space.tiles.size[dest]
      requires src <= z < src + space.tiles.size[src]
      modifies `arena, `space
      ensures Struct() && Counted() && SameBounds() && space == old(space).(link := space.link)
      ensures d < |arena| && z < |arena| && arena == old(arena)[d := old(arena)[z]]
    {
      hide Sound;
      hide Tiled;
      SoundBasics(space);
      Owned(space.tiles, dest, d);
      Owned(space.tiles, src, z);
      assert InArea(d) && InArea(z);
      Poke(d, arena[z]);
    }

    /** Copies the units of one block to another, one after the other. */
    method CopyUnits(dest: nat, src: nat, num: nat)
      requires Struct() && Counted() && 1 <= num && dest != src
      requires dest in space.tiles.size && num <= space.tiles.size[dest] && (dest in space.live || dest in space.loose)
      requires src in space.tiles.size && num <= space.tiles.size[src] && (src in space.live || src in space.loose)
      modifies `arena, `space
      ensures Struct() && Counted() && SameBounds() && space == old(space).(link := space.link)
      ensures dest + num <= |arena| && src + num <= |arena|
      ensures forall k :: dest <= k < dest + num ==> arena[k] == old(arena)[src + (k - dest)]
      ensures forall u :: 0 <= u < |arena| && !(dest <= u < dest + num) ==> arena[u] == old(arena)[u]
    {
      hide Sound;
      hide Tiled;
      hide Struct;
      FarApart(dest, src);
      var d, z, n := dest, src, num;
      while true
        invariant 1 <= n <= num && d == dest + (num - n) && z == src + (num - n)
        invariant Struct() && Counted() && SameBounds() && space == old(space).(link := space.link)
        invariant forall k :: dest <= k < d ==> k < |arena| && src + (k - dest) < |arena| && arena[k] == old(arena)[src + (k - dest)]
        invariant forall u :: 0 <= u < |arena| && !(dest <= u < d) ==> arena[u] == old(arena)[u]
        decreases n
      {
        CopyUnit(dest, src, d, z);
        z, d, n := z + 1, d + 1, n - 1;
        if n == 0 {
          break;
        }
      }
    }

    /** A block in use, perhaps shrunk, is now at `ptr`, with its first `nu` units; all others are kept. */
    twostate predicate Moved(oldPtr: nat, ptr: nat, nu: nat, but: set<nat>)
      reads `arena, `freeList, `stamps, `text, `unitsStart, `loUnit, `hiUnit, `space
    {
      && Valid(but) && |arena| == |old(arena)| && text == old(text) && 1 <= nu <= 128
      && (ptr == oldPtr || ptr !in old(space).live) && space.live == old(space).live - {oldPtr} + {ptr}
      && ptr in space.tiles.size && space.tiles.size[ptr] == I2U(U2I(nu))
      && LiveKept(Without(old(space), {oldPtr}), old(arena), space, arena)
      && ptr + nu <= |arena| && oldPtr + nu <= |arena|
      && arena[ptr..ptr + nu] == old(arena)[oldPtr..oldPtr + nu]
    }

    /** A block just filled no longer counts as unwritten. */
    lemma Written(ptr: nat, but: set<nat>)
      requires Valid(but + {ptr}) && ptr < |arena| && arena[ptr].stamp != EMPTY_NODE
      ensures Valid(but)
    {
      forall b: nat ensures UseOk(space, arena, but, b) {
        assert UseOk(space, arena, but + {ptr}, b);
      }
    }

    /** Moves a block to one of its class, found on a list, and gives up the old one, at the text area if it starts there. */
    method MoveUnitsUp(oldPtr: nat, nu: nat, ghost but: set<nat>) returns (ptr: nat)
      requires Valid(but) && 1 <= nu <= 128 && oldPtr in space.live && oldPtr in space.tiles.size && oldPtr !in but
      requires space.tiles.size[oldPtr] == I2U(U2I(nu)) && Top(space, |arena|) != oldPtr
      modifies `arena, `freeList, `stamps, `unitsStart, `space
      ensures Moved(oldPtr, ptr, nu, but) && oldPtr <= ptr
      ensures ptr == oldPtr <==> UNIT_SIZE * oldPtr > UNIT_SIZE * old(unitsStart) + 16 * 1024
                                 || |old(freeList)| <= U2I(nu) || oldPtr > old(freeList)[U2I(nu)]
      ensures ptr != oldPtr ==>
                && ptr == old(freeList)[U2I(nu)]
                && space.lists == (if oldPtr == old(unitsStart) then Popped(old(space).lists, U2I(nu))
                                   else Front(Popped(old(space).lists, U2I(nu)), U2I(nu), oldPtr))
    {
      hide FiledLists;
      hide Popped;
      hide Front;
      hide I2U;
      hide U2I;
      hide Sound;
      hide Tiled;
      hide LiveKept;
      SoundBasics(space);
      SmallestClass(nu, 0);
      var indx := U2I(nu);
      SmallestClass(nu, indx);
      HomeOf(space, oldPtr);
      InBounds(oldPtr, nu);
      if UNIT_SIZE * oldPtr > UNIT_SIZE * unitsStart + 16 * 1024 || oldPtr > freeList[indx] {
        LiveKeptSelf(space, arena);
        LiveKeptLess(space, arena, space, arena, {oldPtr});
        return oldPtr;
      }
      ptr := MoveListed(oldPtr, indx, nu, but);
    }

    /** The content goes into a listed block of the same class, and the block to its list or to the text area. */
    method MoveListed(oldPtr: nat, indx: nat, nu: nat, ghost but: set<nat>) returns (ptr: nat)
      requires Valid(but) && indx < NUM_INDEXES && 1 <= nu <= 128 && nu <= I2U(indx) && U2I(nu) == indx
      requires oldPtr in space.live && oldPtr in space.tiles.size && oldPtr !in but
      requires space.tiles.size[oldPtr] == I2U(indx) && Top(space, |arena|) != oldPtr
      requires indx < |freeList| && freeList[indx] != 0
      modifies `arena, `freeList, `stamps, `unitsStart, `space
      ensures Moved(oldPtr, ptr, nu, but) && ptr == old(freeList)[indx] && ptr != oldPtr
      ensures space.lists == (if oldPtr == old(unitsStart) then Popped(old(space).lists, indx)
                              else Front(Popped(old(space).lists, indx), indx, oldPtr))
    {
      hide I2U;
      hide U2I;
      hide Sound;
      hide Tiled;
      hide LiveKept;
      hide Popped;
      hide Front;
      SoundBasics(space);
      InBounds(oldPtr, nu);
      ptr := TakeCopy(oldPtr, indx, nu);
      ghost var was, before := space, arena;
      GiveUp(oldPtr, indx);
      assert arena[ptr..ptr + nu] == before[ptr..ptr + nu];
      assert UseOk(old(space), old(arena), but, oldPtr);
      FinishMove(old(space), old(arena), was, before, oldPtr, ptr, but);
    }

    /** Takes a block off a list and copies the content of another one into it. */
    method TakeCopy(oldPtr: nat, indx: nat, nu: nat) returns (ptr: nat)
      requires Struct() && Counted() && space.loose == {} && indx < NUM_INDEXES && 1 <= nu <= I2U(indx)
      requires indx < |freeList| && freeList[indx] != 0
      requires oldPtr in space.live && oldPtr in space.tiles.size && nu <= space.tiles.size[oldPtr]
      modifies `arena, `freeList, `stamps, `space
      ensures Struct() && Counted() && SameBounds() && ptr == old(freeList)[indx] && space.loose == {ptr}
      ensures space.live == old(space).live && ptr !in space.live && space.tiles == old(space).tiles
      ensures space.lists == Popped(old(space).lists, indx)
      ensures ptr in space.tiles.size && space.tiles.size[ptr] == I2U(indx) && ptr + nu <= |arena|
      ensures oldPtr + nu <= |arena| && arena[ptr..ptr + nu] == old(arena)[oldPtr..oldPtr + nu]
      ensures LiveKept(old(space), old(arena), space, arena)
      ensures arena[ptr] == old(arena)[oldPtr] && !(ptr <= oldPtr < ptr + nu)
    {
      hide Sound;
      hide Tiled;
      SoundBasics(space);
      ptr := RemoveNode(indx);
      if ptr < oldPtr {
        BlocksDisjoint(space.tiles, ptr, oldPtr);
      }
      CopyUnits(ptr, oldPtr, nu);
      forall u: nat ensures WriteOk(old(space), old(arena), arena, u) {
        Owned(old(space).tiles, ptr, u);
      }
      KeepsLive(old(space), old(arena), space, arena);
    }

    /** The block at the start of the units becomes part of the text area. */
    method DropToText(ptr: nat, k: nat)
      requires Struct() && Counted() && ptr == unitsStart && ptr in space.live && ptr in space.tiles.size
      requires space.tiles.size[ptr] == k && TopUsed() && Top(space, |arena|) != ptr
      modifies `unitsStart, `space
      ensures Struct() && Counted() && unitsStart == old(unitsStart) + k
      ensures space.loose == old(space).loose && space.live == old(space).live - {ptr}
      ensures space.tiles == Drop(old(space).tiles, ptr) && space.lists == old(space).lists
      ensures LiveKept(Without(old(space), {ptr}), arena, space, arena)
    {
      hide Sound;
      hide Tiled;
      SoundBasics(space);
      HomeOf(space, ptr);
      OwnStart(space.tiles, ptr);
      InBounds(ptr, k);
      Release(ptr);
      ghost var was := space;
      DropSound(space, ptr);
      DropTiled(space.tiles, ptr);
      Owned(space.tiles, ptr, loUnit);
      assert loUnit in space.tiles.owner <==> InArea(loUnit);
      unitsStart := unitsStart + k;
      space := space.(tiles := Drop(space.tiles, ptr), loose := space.loose - {ptr});
      forall b: nat ensures MarkOk(space, arena, b) {
        assert MarkOk(was, arena, b);
      }
      forall u: nat ensures u in space.tiles.owner <==> InArea(u) {
        assert u in space.tiles.owner.Keys <==> u in was.tiles.owner.Keys && u !in Range(ptr, k);
        assert Within(ptr, k, u) <==> ptr <= u < ptr + k;
        Owned(was.tiles, ptr, u);
      }
      Owned(was.tiles, ptr, |arena| - 1);
      KeepsLive(Without(old(space), {ptr}), arena, space, arena);
    }

    /** A block goes to the list of its class, or to the text area when it starts where that ends. */
    method GiveUp(ptr: nat, indx: nat)
      requires Struct() && Counted() && TopUsed() && indx < NUM_INDEXES && ptr in space.live && ptr !in space.loose
      requires ptr in space.tiles.size && space.tiles.size[ptr] == I2U(indx) && Top(space, |arena|) != ptr
      modifies `arena, `freeList, `stamps, `unitsStart, `space
      ensures Struct() && Counted() && |arena| == |old(arena)|
      ensures unitsStart == old(unitsStart) + if ptr == old(unitsStart) then I2U(indx) else 0
      ensures space.lists == if ptr == old(unitsStart) then old(space).lists else Front(old(space).lists, indx, ptr)
      ensures space.loose == old(space).loose && space.live == old(space).live - {ptr}
      ensures forall b :: b in old(space).tiles.size && b != ptr ==>
                b in space.tiles.size && space.tiles.size[b] == old(space).tiles.size[b]
      ensures forall u :: 0 <= u < |arena| && u != ptr ==> arena[u] == old(arena)[u]
      ensures LiveKept(Without(old(space), {ptr}), old(arena), space, arena)
    {
      if ptr != unitsStart {
        FreeOne(ptr, indx);
      } else {
        DropToText(ptr, I2U(indx));
      }
    }

    /** Bookkeeping only: the block copied to is in use now, the one copied from was given up. */
    ghost method FinishMove(s: Space, a: seq<Header>, was: Space, before: seq<Header>, oldPtr: nat, ptr: nat, but: set<nat>)
      requires Struct() && Counted() && space.loose == {ptr} && space.live == s.live - {oldPtr} && ptr !in s.live
      requires Sound(s) && (forall b :: UseOk(s, a, but, b)) && |a| == |arena| > 0
      requires |a| - 1 in s.tiles.owner && s.tiles.owner[|a| - 1] in s.live - {oldPtr}
      requires LiveKept(s, a, was, before) && LiveKept(Without(was, {oldPtr}), before, space, arena)
      requires ptr < |arena| && arena[ptr].stamp != EMPTY_NODE
      modifies `space
      ensures Valid(but) && space.live == s.live - {oldPtr} + {ptr} && space.tiles == old(space).tiles
      ensures space.lists == old(space).lists
      ensures LiveKept(Without(s, {oldPtr}), a, space, arena)
    {
      hide Sound;
      hide LiveKept;
      SoundBasics(space);
      ghost var now := space;
      Give(ptr);
      KeepsLive(now, arena, space, arena);
      LiveKeptLess(s, a, was, before, {oldPtr});
      LiveKeptTrans(Without(s, {oldPtr}), a, Without(was, {oldPtr}), before, now, arena);
      LiveKeptTrans(Without(s, {oldPtr}), a, now, arena, space, arena);
      LosesAndGains(s, a, but, {oldPtr}, {ptr});
      forall b: nat ensures UseOk(space, arena, but + {ptr}, b) {
        assert UseOk(space, arena, but - {oldPtr} + {ptr}, b);
      }
      Written(ptr, but);
    }

    /**
      From class `i0` to class `i1`: the head of the list of the smaller class, if it has one, the block moved from going
      to its own list; otherwise the block itself, its tail going to the lists.
     */
    twostate predicate Shrunk(oldPtr: nat, ptr: nat, i0: nat, i1: nat)
      reads `space
    {
      var lists := old(space).lists;
      if i0 == i1 then ptr == oldPtr && space.lists == lists
      else if i1 < |old(freeList)| && old(freeList)[i1] != 0 then
        ptr == old(freeList)[i1] && space.lists == Front(Popped(lists, i1), i0, oldPtr)
      else
        ptr == oldPtr && I2U(i1) <= I2U(i0)
        && space.lists == FiledLists(lists, oldPtr + I2U(i1), I2U(i0) - I2U(i1))
    }

    /** Shrinks a block: into one from the list of the smaller class, or by cutting off its tail. */
    method ShrinkUnits(oldPtr: nat, oldNU: nat, newNU: nat, ghost but: set<nat>) returns (ptr: nat)
      requires Valid(but) && 1 <= newNU <= oldNU <= 128 && oldPtr in space.live && oldPtr !in but
      requires oldPtr in space.tiles.size && space.tiles.size[oldPtr] == I2U(U2I(oldNU)) && Top(space, |arena|) != oldPtr
      modifies `arena, `freeList, `stamps, `space
      ensures Moved(oldPtr, ptr, newNU, but) && Shrunk(oldPtr, ptr, U2I(oldNU), U2I(newNU))
    {
      hide FiledLists;
      hide Popped;
      hide Front;
      hide I2U;
      hide U2I;
      hide Sound;
      hide Tiled;
      hide LiveKept;
      SoundBasics(space);
      SmallestClass(oldNU, 0);
      SmallestClass(newNU, 0);
      var i0, i1 := U2I(oldNU), U2I(newNU);
      SmallestClass(newNU, i1);
      SmallestClass(newNU, i0);
      SmallestClass(oldNU, i0);
      InBounds(oldPtr, newNU);
      LiveKeptSelf(space, arena);
      if i0 == i1 {
        LiveKeptLess(space, arena, space, arena, {oldPtr});
        return oldPtr;
      }
      if freeList[i1] != 0 {
        ptr := ShrinkByMove(oldPtr, i0, i1, newNU, but);
      } else {
        ClassOfOwnSize(i1);
        SmallestClass(I2U(i1), i0);
        ShrinkInPlace(oldPtr, i0, i1, newNU, but);
        ptr := oldPtr;
      }
    }

    /** The content goes into a listed block of the smaller class. */
    method ShrinkByMove(oldPtr: nat, i0: nat, i1: nat, nu: nat, ghost but: set<nat>) returns (ptr: nat)
      requires Valid(but) && i1 < i0 < NUM_INDEXES && 1 <= nu <= 128 && nu <= I2U(i1) && nu <= I2U(i0) && U2I(nu) == i1
      requires oldPtr in space.live && oldPtr !in but
      requires oldPtr in space.tiles.size && space.tiles.size[oldPtr] == I2U(i0) && Top(space, |arena|) != oldPtr
      requires i1 < |freeList| && freeList[i1] != 0
      modifies `arena, `freeList, `stamps, `space
      ensures Moved(oldPtr, ptr, nu, but) && ptr == old(freeList)[i1]
      ensures space.lists == Front(Popped(old(space).lists, i1), i0, oldPtr)
    {
      hide I2U;
      hide U2I;
      hide Sound;
      hide Tiled;
      hide LiveKept;
      hide Popped;
      hide Front;
      SoundBasics(space);
      InBounds(oldPtr, nu);
      ptr := TakeCopy(oldPtr, i1, nu);
      ghost var was, before := space, arena;
      FreeOne(oldPtr, i0);
      assert arena[ptr..ptr + nu] == before[ptr..ptr + nu];
      assert UseOk(old(space), old(arena), but, oldPtr);
      FinishMove(old(space), old(arena), was, before, oldPtr, ptr, but);
    }

    /** The tail of a block in use is cut off and put on the lists. */
    method ShrinkInPlace(ptr: nat, i0: nat, i1: nat, nu: nat, ghost but: set<nat>)
      requires Valid(but) && i1 < i0 < NUM_INDEXES && 1 <= nu <= I2U(i1) && U2I(nu) == i1 && ptr in space.live && ptr !in but
      requires ptr in space.tiles.size && space.tiles.size[ptr] == I2U(i0) && Top(space, |arena|) != ptr
      modifies `arena, `freeList, `stamps, `space
      ensures Moved(ptr, ptr, nu, but)
      ensures space.lists == FiledLists(old(space).lists, ptr + I2U(i1), I2U(i0) - I2U(i1))
    {
      hide FiledLists;
      hide Sound;
      hide Tiled;
      hide LiveKept;
      SoundBasics(space);
      ClassOfOwnSize(i1);
      HomeOf(space, ptr);
      InBounds(ptr, nu);
      Release(ptr);
      SplitBlock(ptr, i0, i1);
      ghost var s := Without(old(space), {ptr});
      forall u: nat ensures WriteOk(s, old(arena), arena, u) {
        Owned(s.tiles, ptr, u);
      }
      KeepsLive(s, old(arena), space, arena);
      ghost var now := space;
      Give(ptr);
      SoundBasics(space);
      KeepsLive(now, arena, space, arena);
      LiveKeptTrans(s, old(arena), now, arena, space, arena);
      LosesAndGains(old(space), old(arena), but, {ptr}, {ptr});
      assert but - {ptr} + {ptr} == but + {ptr};
      assert UseOk(old(space), old(arena), but, ptr);
      Written(ptr, but);
      assert arena[ptr..ptr + nu] == old(arena)[ptr..ptr + nu];
    }

    /** A unit given up goes to the text area when it lies there, to the list of single units otherwise. */
    method SpecialFreeUnit(ptr: nat, ghost but: set<nat>)
      requires Valid(but) && ptr in space.live && ptr in space.tiles.size && space.tiles.size[ptr] == 1
      requires Top(space, |arena|) != ptr
      modifies `arena, `freeList, `stamps, `unitsStart, `space
      ensures Freed(ptr, but)
      ensures unitsStart == old(unitsStart) + if ptr == old(unitsStart) then 1 else 0
      ensures space.lists == if ptr == old(unitsStart) then old(space).lists else Front(old(space).lists, 0, ptr)
    {
      hide Sound;
      SoundBasics(space);
      GiveUp(ptr, 0);
      LosesAndGains(old(space), old(arena), but, {ptr}, {});
      assert but - {ptr} + {} == but - {ptr};
    }

    lemma InBounds(b: nat, nu: nat)
      requires Struct() && b in space.tiles.size && 1 <= nu <= space.tiles.size[b]
      ensures b + nu <= |arena| && InArea(b)
    {
      hide Sound;
      hide Tiled;
      SoundBasics(space);
      OwnStart(space.tiles, b);
      Owned(space.tiles, b, b + nu - 1);
      assert InArea(b + nu - 1);
    }

    // ---------- growing the text area ----------

    /** A listed block below `bound` is marked for removal. */
    ghost predicate StampOk(bound: nat, b: nat)
      reads `arena, `space
    {
      b in space.tiles.size && b !in space.live && b !in space.loose ==>
        && b < |arena| && arena[b].stamp == (if b < bound then 0 else EMPTY_NODE)
        && arena[b].nu == space.tiles.size[b]
    }

    /** Everything below `bound` is free; what was taken off its list already is loose. */
    ghost predicate Trimming(bound: nat)
      reads `arena, `freeList, `stamps, `space
    {
      && Sound(space) && LinksOf(arena, space.link) && space.freeList == freeList && Counted()
      && (forall b :: StampOk(bound, b))
      && (forall b :: b in space.loose ==> b < bound) && (forall b :: b in space.live ==> bound <= b)
    }

    /** Takes node `k` of a list out, `prev` being the node before it, or null at the head. */
    method Unlink(i: nat, prev: nat, node: nat, ghost k: nat, ghost bound: nat)
      requires Trimming(bound) && i < NUM_INDEXES && i < |space.lists| && k < |space.lists[i]|
      requires node == space.lists[i][k] < bound && prev == if k == 0 then 0 else space.lists[i][k - 1]
      modifies `arena, `freeList, `stamps, `space
      ensures Trimming(bound) && |arena| == |old(arena)| && i < |old(stamps)| && stamps == old(stamps)[i := old(stamps)[i] - 1]
      ensures space.lists == old(space).lists[i := Deleted(old(space).lists[i], k)]
      ensures space.live == old(space).live && space.tiles == old(space).tiles
      ensures LiveKept(old(space), old(arena), space, arena)
    {
      hide Sound;
      hide Tiled;
      hide Deleted;
      SoundBasics(space);
      ghost var was, before := space, arena;
      UnlinkSound(space, i, k);
      ListAt(space, i);
      LinkedAt(space.link, space.freeList[i], space.lists[i], k);
      assert |Deleted(space.lists[i], k)| == |space.lists[i]| - 1 by {
        DeleteBelow(space.lists[i], k, bound);
      }
      if k > 0 {
        LinkedAt(space.link, space.freeList[i], space.lists[i], k - 1);
      }
      var after := arena[node].next;
      if prev == 0 {
        freeList := freeList[i := after];
      } else {
        NodeAt(space, i, prev);
        OwnStart(space.tiles, prev);
        arena := arena[prev := arena[prev].(next := after)];
      }
      stamps := stamps[i := stamps[i] - 1];
      space := Unlinked(space, i, k);
      forall b: nat ensures StampOk(bound, b) {
        assert old(StampOk(bound, b));
      }
      forall u: nat ensures WriteOk(was, before, arena, u) {
      }
      KeepsLive(was, before, space, arena);
    }

    /** The word of node `prev`, or the head of list `i`. */
    function Target(i: nat, prev: nat): nat
      requires i < |freeList| && prev < |arena|
      reads `arena, `freeList
    {
      if prev == 0 then freeList[i] else arena[prev].next
    }

    lemma TargetIs(i: nat, prev: nat, k: nat, bound: nat)
      requires Trimming(bound) && i < NUM_INDEXES && i < |space.lists| && k <= |space.lists[i]|
      requires prev == if k == 0 then 0 else space.lists[i][k - 1]
      ensures i < |freeList| && (0 < |arena| ==> prev < |arena|)
      ensures k < |space.lists[i]| ==> prev < |arena| && Target(i, prev) == space.lists[i][k] && 0 < space.lists[i][k] < |arena|
    {
      hide Sound;
      SoundBasics(space);
      ListAt(space, i);
      if k > 0 {
        LinkedAt(space.link, space.freeList[i], space.lists[i], k - 1);
      }
      if k < |space.lists[i]| {
        LinkedAt(space.link, space.freeList[i], space.lists[i], k);
      }
    }

    /** One marked node goes; the word that led to it leads to what follows. */
    method TrimNode(i: nat, prev: nat, node: nat, c: nat, ghost k: nat, ghost bound: nat) returns (c': nat, node': nat)
      requires Trimming(bound) && i < NUM_INDEXES && i < |space.lists| && k < |space.lists[i]| && c != 0
      requires node == space.lists[i][k] < |arena| && arena[node].stamp == 0
      requires prev == if k == 0 then 0 else space.lists[i][k - 1]
      requires c == CountBelow(space.lists[i], bound) == CountBelow(space.lists[i][k..], bound)
      modifies `arena, `freeList, `stamps, `space
      ensures Trimming(bound) && |arena| == |old(arena)| && i < |space.lists| == |old(space).lists| && c' == c - 1
      ensures k <= |space.lists[i]| == |old(space).lists[i]| - 1 && prev == if k == 0 then 0 else space.lists[i][k - 1]
      ensures c' == CountBelow(space.lists[i], bound) == CountBelow(space.lists[i][k..], bound)
      ensures Above(space.lists[i], bound) == Above(old(space).lists[i], bound)
      ensures space.lists == old(space).lists[i := space.lists[i]]
      ensures c' != 0 ==> k < |space.lists[i]| && node' == space.lists[i][k] && 0 < node' < |arena|
      ensures space.live == old(space).live && space.tiles == old(space).tiles
      ensures LiveKept(old(space), old(arena), space, arena)
    {
      hide Sound;
      hide LiveKept;
      NodeAt(space, i, node);
      assert StampOk(bound, node);
      DeleteBelow(space.lists[i], k, bound);
      Unlink(i, prev, node, k, bound);
      TargetIs(i, prev, k, bound);
      c' := c - 1;
      node' := Target(i, prev);
    }

    /** A node not marked is passed over. */
    lemma PassNode(i: nat, k: nat, bound: nat)
      requires Trimming(bound) && i < NUM_INDEXES && i < |space.lists| && k < |space.lists[i]|
      requires space.lists[i][k] < |arena| && arena[space.lists[i][k]].stamp != 0
      ensures CountBelow(space.lists[i][k..], bound) == CountBelow(space.lists[i][k + 1..], bound)
    {
      hide Sound;
      NodeAt(space, i, space.lists[i][k]);
      assert StampOk(bound, space.lists[i][k]);
      assert space.lists[i][k..][1..] == space.lists[i][k + 1..];
    }

    /** Takes all marked nodes off one list; there are `count` of them. */
    method TrimList(i: nat, count: nat, ghost bound: nat)
      requires Trimming(bound) && i < NUM_INDEXES && i < |space.lists| && count == CountBelow(space.lists[i], bound)
      modifies `arena, `freeList, `stamps, `space
      ensures Trimming(bound) && |arena| == |old(arena)|
      ensures space.lists == old(space).lists[i := Above(old(space).lists[i], bound)]
      ensures space.live == old(space).live && space.tiles == old(space).tiles
      ensures LiveKept(old(space), old(arena), space, arena)
    {
      hide Sound;
      hide LiveKept;
      hide Deleted;
      SoundBasics(space);
      LiveKeptSelf(space, arena);
      var prev, c := 0, count;
      ghost var k := 0;
      while c != 0
        invariant Trimming(bound) && |arena| == |old(arena)| && i < |space.lists| == |old(space).lists|
        invariant k <= |space.lists[i]| && prev == if k == 0 then 0 else space.lists[i][k - 1]
        invariant c == CountBelow(space.lists[i], bound) == CountBelow(space.lists[i][k..], bound)
        invariant |space.lists[i]| - c == |old(space).lists[i]| - count
        invariant Above(space.lists[i], bound) == Above(old(space).lists[i], bound)
        invariant space.lists == old(space).lists[i := space.lists[i]]
        invariant space.live == old(space).live && space.tiles == old(space).tiles
        invariant LiveKept(old(space), old(arena), space, arena)
        decreases c, |space.lists[i]| - k
      {
        TargetIs(i, prev, k, bound);
        var node := Target(i, prev);
        while arena[node].stamp == 0
          invariant c != 0 && Trimming(bound) && |arena| == |old(arena)| && i < |space.lists| == |old(space).lists|
          invariant k < |space.lists[i]| && prev == if k == 0 then 0 else space.lists[i][k - 1]
          invariant node == space.lists[i][k] && 0 < node < |arena|
          invariant c == CountBelow(space.lists[i], bound) == CountBelow(space.lists[i][k..], bound)
          invariant |space.lists[i]| - c == |old(space).lists[i]| - count
          invariant Above(space.lists[i], bound) == Above(old(space).lists[i], bound)
          invariant space.lists == old(space).lists[i := space.lists[i]]
          invariant space.live == old(space).live && space.tiles == old(space).tiles
          invariant LiveKept(old(space), old(arena), space, arena)
          decreases c
        {
          ghost var was, before := space, arena;
          c, node := TrimNode(i, prev, node, c, k, bound);
          LiveKeptTrans(old(space), old(arena), was, before, space, arena);
          if c == 0 {
            break;
          }
        }
        if c != 0 {
          PassNode(i, k, bound);
          prev, k := node, k + 1;
        }
      }
      NoneBelow(space.lists[i], bound);
    }

    /** The run of free blocks found so far ends at `node`; its blocks are marked, and counted per class. */
    ghost predicate Marking(node: nat, count: seq<nat>)
      reads `arena, `freeList, `stamps, `text, `unitsStart, `loUnit, `hiUnit, `space
    {
      && Trimming(node) && Laid() && TopUsed() && Marked({}) && space.loose == {}
      && (loUnit != hiUnit ==> arena[loUnit].stamp != EMPTY_NODE)
      && unitsStart <= node < |arena| && (node in space.tiles.size || (node == loUnit && loUnit != hiUnit))
      && Boundary(space.tiles, node) && FreeRun(space, unitsStart, node)
      && |count| == NUM_INDEXES && (forall i :: CountOk(count, node, i))
    }

    ghost predicate CountOk(count: seq<nat>, node: nat, i: nat)
      reads `space
    {
      i < |count| && i < |space.lists| ==> count[i] == CountBelow(space.lists[i], node)
    }

    lemma StartMarking(count: seq<nat>)
      requires Valid({}) && (loUnit != hiUnit ==> arena[loUnit].stamp != EMPTY_NODE)
      requires count == seq(NUM_INDEXES, _ => 0)
      ensures Marking(unitsStart, count)
    {
      hide Sound;
      hide Tiled;
      SoundBasics(space);
      var t := space.tiles;
      forall b | b in t.size ensures unitsStart <= b {
        OwnStart(t, b);
        assert InArea(b);
      }
      assert InArea(|arena| - 1);
      if InArea(unitsStart) {
        OwnerOf(t, unitsStart);
      }
      forall b: nat ensures StampOk(unitsStart, b) {
        assert MarkOk(space, arena, b);
      }
      forall i: nat ensures CountOk(count, unitsStart, i) {
        if i < NUM_INDEXES {
          forall x | x in space.lists[i] ensures unitsStart <= x {
            NodeAt(space, i, x);
          }
          NoneBelow(space.lists[i], unitsStart);
        }
      }
    }

    /** One more free block of the run is marked and counted. */
    method MarkOne(node: nat, count: seq<nat>) returns (node': nat, count': seq<nat>)
      requires Marking(node, count) && arena[node].stamp == EMPTY_NODE
      modifies `arena
      ensures Marking(node', count') && |arena| == |old(arena)| && node < node'
      ensures LiveKept(space, old(arena), space, arena)
    {
      hide I2U;
      hide U2I;
      hide Sound;
      hide Tiled;
      hide LiveKept;
      SoundBasics(space);
      var t := space.tiles;
      assert UseOk(space, arena, {}, node) && StampOk(node, node);
      assert node in t.size && node !in space.live;
      HomeOf(space, node);
      ghost var i: nat :| OnList(space, i, node);
      NodeAt(space, i, node);
      ClassOfOwnSize(i);
      Behind(node);
      var nu := arena[node].nu;
      arena := arena[node := arena[node].(stamp := 0)];
      count' := count[U2I(nu) := count[U2I(nu)] + 1];
      node' := node + nu;
      forall b | b in t.size && node < b ensures node' <= b {
        BlocksDisjoint(t, node, b);
      }
      forall b: nat ensures StampOk(node', b) {
        assert old(StampOk(node, b));
      }
      forall b: nat ensures UseOk(space, arena, {}, b) {
        assert old(UseOk(space, arena, {}, b));
      }
      forall j: nat ensures CountOk(count', node', j) {
        CountedOne(i, j, node, node', count);
      }
      forall u | unitsStart <= u < node' ensures u in t.owner && t.owner[u] !in space.live {
        Owned(t, node, u);
      }
      forall u: nat ensures WriteOk(space, old(arena), arena, u) {
        OwnStart(t, node);
      }
      KeepsLive(space, old(arena), space, arena);
    }

    lemma CountedOne(i: nat, j: nat, node: nat, node': nat, count: seq<nat>)
      requires Sound(space) && OnList(space, i, node) && node < node' && |count| == NUM_INDEXES
      requires (forall b :: b in space.tiles.size && node < b ==> node' <= b) && CountOk(count, node, j)
      ensures i < NUM_INDEXES && CountOk(count[i := count[i] + 1], node', j)
    {
      hide Sound;
      SoundBasics(space);
      if j < NUM_INDEXES {
        ListAt(space, j);
        forall x | x in space.lists[j] && node < x ensures node' <= x {
          NodeAt(space, j, x);
        }
        CountStep(space.lists[j], node, node');
        if node in space.lists[j] {
          assert OnList(space, j, node);
          OneList(space, i, j, node);
        }
      }
    }

    /** Walks the free blocks from the start of the units, marking them and counting them per class. */
    method MarkRun() returns (node: nat, count: seq<nat>)
      requires Valid({}) && (loUnit != hiUnit ==> arena[loUnit].stamp != EMPTY_NODE)
      modifies `arena
      ensures |arena| == |old(arena)| && Marking(node, count) && arena[node].stamp != EMPTY_NODE
      ensures LiveKept(space, old(arena), space, arena)
    {
      hide LiveKept;
      LiveKeptSelf(space, arena);
      node, count := unitsStart, seq(NUM_INDEXES, _ => 0);
      StartMarking(count);
      hide Valid;
      while arena[node].stamp == EMPTY_NODE
        invariant Marking(node, count) && |arena| == |old(arena)| && LiveKept(space, old(arena), space, arena)
        decreases |arena| - node
      {
        ghost var before := arena;
        node, count := MarkOne(node, count);
        LiveKeptTrans(space, old(arena), space, before, space, arena);
      }
    }

    /** Takes the marked nodes off every list. */
    method TrimLists(count: seq<nat>, ghost bound: nat)
      requires Trimming(bound) && |count| == NUM_INDEXES == |space.lists|
      requires forall i :: 0 <= i < NUM_INDEXES ==> count[i] == CountBelow(space.lists[i], bound)
      modifies `arena, `freeList, `stamps, `space
      ensures Trimming(bound) && |arena| == |old(arena)| && |space.lists| == NUM_INDEXES
      ensures forall i :: 0 <= i < NUM_INDEXES ==> space.lists[i] == Above(old(space).lists[i], bound)
      ensures space.live == old(space).live && space.tiles == old(space).tiles
      ensures LiveKept(old(space), old(arena), space, arena)
    {
      hide Sound;
      hide LiveKept;
      LiveKeptSelf(space, arena);
      hide Trimming;
      hide Above;
      hide CountBelow;
      ghost var was := space;
      var i := 0;
      while i < NUM_INDEXES
        invariant i <= NUM_INDEXES == |space.lists| && Trimming(bound) && |arena| == |old(arena)|
        invariant forall j :: 0 <= j < i ==> space.lists[j] == Above(was.lists[j], bound)
        invariant forall j :: i <= j < NUM_INDEXES ==> space.lists[j] == was.lists[j]
        invariant space.live == was.live && space.tiles == was.tiles
        invariant LiveKept(was, old(arena), space, arena)
      {
        ghost var now, there := space, arena;
        TrimList(i, count[i], bound);
        LiveKeptTrans(was, old(arena), now, there, space, arena);
        i := i + 1;
      }
    }

    /** The blocks from the start of the units that are free become part of the text area, and nothing else does. */
    method ExpandTextArea()
      requires Valid({})
      modifies `arena, `freeList, `stamps, `unitsStart, `space
      ensures Valid({}) && |arena| == |old(arena)| && FreeRun(old(space), old(unitsStart), unitsStart)
      ensures !(unitsStart in old(space).tiles.owner && old(space).tiles.owner[unitsStart] !in old(space).live)
      ensures |space.lists| == |old(space).lists| == NUM_INDEXES
      ensures forall i :: 0 <= i < NUM_INDEXES ==> space.lists[i] == Above(old(space).lists[i], unitsStart)
      ensures space.tiles == Trim(old(space).tiles, unitsStart) && space.live == old(space).live
      ensures LiveKept(old(space), old(arena), space, arena)
    {
      hide Sound;
      hide LiveKept;
      hide Trimming;
      SoundBasics(space);
      LiveKeptSelf(space, arena);
      if loUnit != hiUnit {
        Guard();
      }
      ghost var was, before := space, arena;
      var node, count := MarkRun();
      LiveKeptTrans(space, old(arena), space, before, space, arena);
      RunEnds(node, count);
      unitsStart := node;
      ghost var now, there := space, arena;
      TrimLists(count, node);
      LiveKeptTrans(old(space), old(arena), now, there, space, arena);
      now := space;
      FinishExpand(was.lists, old(unitsStart));
      LiveKeptTrans(old(space), old(arena), now, arena, space, arena);
      StaysValid({});
    }

    lemma RunEnds(node: nat, count: seq<nat>)
      requires Marking(node, count) && arena[node].stamp != EMPTY_NODE
      ensures !(node in space.tiles.owner && space.tiles.owner[node] !in space.live)
      ensures |count| == NUM_INDEXES == |space.lists|
      ensures forall i :: 0 <= i < NUM_INDEXES ==> count[i] == CountBelow(space.lists[i], node)
      ensures node <= loUnit || loUnit == hiUnit
    {
      hide Sound;
      hide Tiled;
      SoundBasics(space);
      assert loUnit in space.tiles.owner <==> InArea(loUnit);
      if node in space.tiles.owner {
        assert InArea(node);
        OwnStart(space.tiles, node);
        assert StampOk(node, node);
      }
      forall i: nat | i < NUM_INDEXES ensures count[i] == CountBelow(space.lists[i], node) {
        assert CountOk(count, node, i);
      }
    }

    /** Bookkeeping only: the blocks taken off the lists are given up. */
    ghost method FinishExpand(lists: seq<seq<nat>>, from: nat)
      requires Trimming(unitsStart) && TopUsed() && Boundary(space.tiles, unitsStart) && |arena| > 0
      requires |lists| == |space.lists| && forall i :: 0 <= i < |lists| ==> space.lists[i] == Above(lists[i], unitsStart)
      requires from <= unitsStart < |arena| && (unitsStart <= loUnit || loUnit == hiUnit)
      requires 0 < from && loUnit <= hiUnit < |arena| && base <= text < UNIT_SIZE * from
      requires forall u :: u in space.tiles.owner <==> from <= u < |arena| && !(loUnit <= u < hiUnit)
      modifies `space
      ensures Struct() && Counted() && space.loose == {} && space.live == old(space).live
      ensures space.tiles == Trim(old(space).tiles, unitsStart) && space.lists == old(space).lists
      ensures LiveKept(old(space), arena, space, arena)
    {
      hide Sound;
      hide Tiled;
      SoundBasics(space);
      var was, bound := space, unitsStart;
      forall b | b in was.tiles.size ensures b in was.loose <==> b < bound {
        HomeOf(was, b);
        if i: nat :| OnList(was, i, b) {
          AboveMembers(lists[i], bound);
          NodeAt(was, i, b);
        }
      }
      TrimSound(space, bound);
      TrimTiled(space.tiles, bound);
      space := space.(tiles := Trim(space.tiles, bound), loose := {});
      forall b: nat ensures MarkOk(space, arena, b) {
        assert StampOk(bound, b) by {
          assert old(StampOk(bound, b));
        }
      }
      KeepsLive(was, arena, space, arena);
    }

    // ---------- accounting ----------

    /** The units between the text area and the end, without the gap, counted. */
    lemma AreaCount()
      requires Valid({})
      ensures |space.tiles.owner.Keys| == |arena| - unitsStart - (hiUnit - loUnit)
      ensures unitsStart + (hiUnit - loUnit) <= |arena|
    {
      hide Sound;
      assert InArea(|arena| - 1);
      forall u: nat ensures u in space.tiles.owner <==> InArea(u) {
      }
      if unitsStart <= loUnit {
        TwoRanges(space.tiles.owner.Keys, unitsStart, loUnit - unitsStart, hiUnit, |arena| - hiUnit);
      } else {
        TwoRanges(space.tiles.owner.Keys, unitsStart, 0, unitsStart, |arena| - unitsStart);
      }
    }

    /** The memory in use is the text and the blocks in use, not a byte more or less. */
    method GetUsedMemory(size: nat) returns (used: nat)
      requires Valid({}) && size == UNIT_SIZE * |arena| - base
      ensures used == (text - base) + UNIT_SIZE * |Units(space.tiles, space.live)| <= size
    {
      hide Sound;
      SoundBasics(space);
      AreaCount();
      UnitsAccounted(space);
      var v, i := 0, 0;
      while i < NUM_INDEXES
        invariant i <= NUM_INDEXES == |space.lists| && v + ListUnits(space.lists, i) == ListUnits(space.lists, 0)
      {
        v := v + stamps[i] * I2U(i);
        i := i + 1;
      }
      used := size - UNIT_SIZE * (hiUnit - loUnit) - (UNIT_SIZE * unitsStart - text) - UNIT_SIZE * v;
    }

    /**
      One more byte of text. When the text has come to the units, which it never passes, the caller has to restart the
      model; until then all is as it should be.
     */
    method AppendText(ghost but: set<nat>) returns (full: bool)
      requires Valid(but)
      modifies `text
      ensures text == old(text) + 1 && full == (text == UNIT_SIZE * unitsStart) && text <= UNIT_SIZE * unitsStart
      ensures !full ==> Valid(but)
    {
      text := text + 1;
      full := text >= UNIT_SIZE * unitsStart;
    }
  }

  /** Blocks in use that keep their content keep a first word that does not look empty. */
  lemma MarksKept(s: Space, a: seq<Header>, r: Space, c: seq<Header>, but: set<nat>, more: set<nat>)
    requires Tiled(s.tiles) && LiveKept(s, a, r, c) && r.live == s.live + more && forall b :: UseOk(s, a, but, b)
    ensures forall b :: UseOk(r, c, but + more, b)
  {
    hide Tiled;
    forall b: nat ensures UseOk(r, c, but + more, b) {
      assert UseOk(s, a, but, b) && LiveBlockKept(s, a, r, c, b);
      if b in s.live {
        OwnStart(s.tiles, b);
      }
    }
  }

  /** From list `i` on, the lists at `freeList` are still the ones in `lists`. */
  ghost predicate Pending(link: seq<nat>, freeList: seq<nat>, lists: seq<seq<nat>>, i: nat) {
    && |freeList| == |lists| == NUM_INDEXES
    && forall j :: i <= j < NUM_INDEXES ==> Linked(link, freeList[j], lists[j])
  }

  lemma PendingNext(link: seq<nat>, freeList: seq<nat>, lists: seq<seq<nat>>, i: nat)
    requires Pending(link, freeList, lists, i) && i < NUM_INDEXES
    ensures |freeList| == |lists| == NUM_INDEXES && Linked(link, freeList[i], lists[i])
    ensures Pending(link, freeList[i := 0], lists, i + 1)
  {
  }

  lemma PendingStays(link: seq<nat>, m: seq<nat>, freeList: seq<nat>, lists: seq<seq<nat>>, i: nat, p: nat)
    requires Pending(link, freeList, lists, i) && i <= |lists| && |m| == |link| && p !in Flat(lists, i)
    requires forall u :: 0 <= u < |link| && u != p ==> m[u] == link[u]
    ensures Pending(m, freeList, lists, i)
  {
    hide Linked;
    FlatMembers(lists, i);
    forall j: nat | i <= j < NUM_INDEXES ensures Linked(m, freeList[j], lists[j]) {
      LinkedOther(link, m, freeList[j], lists[j], p);
    }
  }

  /** A free block met or waiting has its stamp and knows its size. */
  ghost predicate LooseOk(s: Space, a: seq<Header>, b: nat, done: seq<nat>, queue: seq<nat>) {
    b in s.loose ==>
      && b < |a| && a[b].stamp == EMPTY_NODE
      && b in s.tiles.size && a[b].nu == s.tiles.size[b]
      && (b in done || b in queue)
  }

  /** A node met is a loose block, or was absorbed into one. */
  ghost predicate QueuedOk(s: Space, a: seq<Header>, x: nat, done: seq<nat>, queue: seq<nat>) {
    x in done || x in queue ==>
      && 0 < x < |a| && x in s.tiles.owner && s.tiles.owner[x] in s.loose
      && (s.tiles.owner[x] == x || a[x].nu == 0)
  }

  /** At the start every free block waits. */
  lemma AllQueued(s: Space, a: seq<Header>, queue: seq<nat>)
    requires Tiled(s.tiles) && (forall b :: MarkOk(s, a, b)) && s.loose == {}
    requires forall b :: b in queue <==> b in s.tiles.size && b !in s.live && b !in s.loose
    requires forall b :: b in s.tiles.size ==> 0 < b < |a|
    ensures forall b :: LooseOk(Emptied(s), a, b, [], queue)
    ensures forall x :: QueuedOk(Emptied(s), a, x, [], queue)
  {
    hide Tiled;
    forall b: nat ensures LooseOk(Emptied(s), a, b, [], queue) {
      assert MarkOk(s, a, b);
    }
    forall x: nat ensures QueuedOk(Emptied(s), a, x, [], queue) {
      if x in queue {
        OwnStart(s.tiles, x);
      }
    }
  }

  lemma LooseJoined(s: Space, a: seq<Header>, r: Space, c: seq<Header>, x: nat, node2: nat, done: seq<nat>, queue: seq<nat>)
    requires Tiled(s.tiles) && |a| == |c| && x in s.loose && node2 in s.loose && x != node2
    requires x in s.tiles.size && node2 == x + s.tiles.size[x] && node2 in s.tiles.size
    requires r.tiles == Join(s.tiles, x) && r.loose == s.loose - {node2} && x < |a| && node2 < |a|
    requires c[x] == a[x].(nu := a[x].nu + a[node2].nu) && c[node2] == a[node2].(nu := 0)
    requires forall u :: 0 <= u < |a| && u != x && u != node2 ==> c[u] == a[u]
    requires forall b :: LooseOk(s, a, b, done, queue)
    ensures forall b :: LooseOk(r, c, b, done, queue)
  {
    hide Tiled;
    JoinIs(s.tiles, x);
    assert LooseOk(s, a, x, done, queue) && LooseOk(s, a, node2, done, queue);
    forall b: nat ensures LooseOk(r, c, b, done, queue) {
      assert LooseOk(s, a, b, done, queue);
    }
  }

  lemma QueuedJoined(s: Space, a: seq<Header>, r: Space, c: seq<Header>, x: nat, node2: nat, done: seq<nat>, queue: seq<nat>)
    requires Tiled(s.tiles) && |a| == |c| && x in s.loose && node2 in s.loose && x != node2
    requires x in s.tiles.size && node2 == x + s.tiles.size[x] && node2 in s.tiles.size
    requires r.tiles == Join(s.tiles, x) && r.loose == s.loose - {node2} && x < |a| && node2 < |a|
    requires c[x] == a[x].(nu := a[x].nu + a[node2].nu) && c[node2] == a[node2].(nu := 0)
    requires forall u :: 0 <= u < |a| && u != x && u != node2 ==> c[u] == a[u]
    requires forall y :: QueuedOk(s, a, y, done, queue)
    ensures forall y :: QueuedOk(r, c, y, done, queue)
  {
    hide Tiled;
    OwnStart(s.tiles, x);
    OwnStart(s.tiles, node2);
    forall y: nat ensures QueuedOk(r, c, y, done, queue) {
      assert QueuedOk(s, a, y, done, queue);
    }
  }

  /** Later nodes of a chain are never inside the loose blocks of earlier ones. */
  ghost predicate OrderOk(s: Space, l: seq<nat>, j: nat, k: nat) {
    j < k < |l| && l[j] in s.loose && l[j] in s.tiles.size ==> !(l[j] < l[k] < l[j] + s.tiles.size[l[j]])
  }

  /** The block that grew is the last one met. */
  lemma OrderJoined(s: Space, r: Space, done: seq<nat>, queue: seq<nat>, x: nat, node2: nat)
    requires NoDup(done + queue) && done != [] && x == done[|done| - 1] && x in s.tiles.size
    requires node2 == x + s.tiles.size[x] && node2 in s.tiles.size && x != node2
    requires r.tiles == Join(s.tiles, x) && r.loose == s.loose - {node2} && forall j, k :: OrderOk(s, done, j, k)
    ensures forall j, k :: OrderOk(r, done, j, k)
  {
    forall j: nat, k: nat ensures OrderOk(r, done, j, k) {
      assert OrderOk(s, done, j, k);
      if j < k < |done| {
        assert (done + queue)[j] == done[j] && (done + queue)[|done| - 1] == x;
      }
    }
  }

  /** The chain still to be filed holds all loose blocks, with their sizes. */
  ghost predicate Filing(s: Space, a: seq<Header>, rest: seq<nat>) {
    && NoDup(rest) && (forall b :: FileOk(s, a, rest, b)) && (forall x :: RestOk(s, a, rest, x))
    && (forall j, k :: OrderOk(s, rest, j, k))
  }

  ghost predicate FileOk(s: Space, a: seq<Header>, rest: seq<nat>, b: nat) {
    b in s.loose ==> b in rest && b < |a| && b in s.tiles.size && a[b].nu == s.tiles.size[b]
  }

  ghost predicate RestOk(s: Space, a: seq<Header>, rest: seq<nat>, x: nat) {
    x in rest ==> x < |a| && (x in s.loose || a[x].nu == 0)
  }

  /** Filing one block leaves the rest of the chain as it was. */
  lemma FiledRest(rest: seq<nat>, s: Space, a: seq<Header>, r: Space, c: seq<Header>)
    requires Filing(s, a, rest) && rest != [] && rest[0] < |a| == |c| && LinksOf(a, s.link) && LinksOf(c, r.link)
    requires Linked(s.link, a[rest[0]].next, rest[1..])
    requires if rest[0] in s.loose then FiledOne(s, a, r, c, rest[0]) else r == s && c == a
    ensures Filing(r, c, rest[1..]) && Linked(r.link, a[rest[0]].next, rest[1..])
  {
    var node, l := rest[0], rest[1..];
    forall x | x in l ensures x < |a| && c[x] == a[x] && x != node {
      var k :| 0 <= k < |l| && l[k] == x;
      assert rest[k + 1] == x;
      assert OrderOk(s, rest, 0, k + 1) && RestOk(s, a, rest, x) && FileOk(s, a, rest, node);
    }
    forall j, k | 0 <= j < k < |l| ensures l[j] != l[k] {
      assert l[j] == rest[j + 1] && l[k] == rest[k + 1];
    }
    forall b: nat ensures FileOk(r, c, l, b) {
      assert FileOk(s, a, rest, b);
      assert b in s.loose && b != node ==> b in l by {
        assert rest == [node] + l;
      }
    }
    forall x: nat ensures RestOk(r, c, l, x) {
      assert RestOk(s, a, rest, x);
      assert x in l ==> x in rest;
    }
    forall j: nat, k: nat ensures OrderOk(r, l, j, k) {
      assert OrderOk(s, rest, j + 1, k + 1);
      assert j < |l| && l[j] in r.loose ==> FileOk(s, a, rest, l[j]);
    }
    LinkedSame(s.link, r.link, a[node].next, l);
  }

  ghost predicate FiledOne(s: Space, a: seq<Header>, r: Space, c: seq<Header>, node: nat) {
    && node in s.tiles.size && r.loose == s.loose - {node} && KeptBut(s.tiles, r.tiles, node)
    && forall u :: 0 <= u < |a| && u < |c| && !(node <= u < node + s.tiles.size[node]) ==> c[u] == a[u]
  }

}
