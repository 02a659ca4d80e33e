/** Runs of free blocks: what gluing joins, and the pieces in which joined blocks are put back on the lists. */
module FreeRuns {
  import opened Tiling
  import opened SizeClasses
  import opened FreeSpace
  import opened InUse

  // ---------- lists ----------

  /** A node at the head of a list. */
  function Front(lists: seq<seq<nat>>, i: nat, node: nat): (r: seq<seq<nat>>)
    ensures |r| == |lists|
  {
    if i < |lists| then lists[i := [node] + lists[i]] else lists
  }

  /** A list without its head. */
  function Popped(lists: seq<seq<nat>>, i: nat): (r: seq<seq<nat>>)
    ensures |r| == |lists|
  {
    if i < |lists| && lists[i] != [] then lists[i := lists[i][1..]] else lists
  }

  /** The first list from `i` on that has a block, or the number of lists. */
  function FirstFrom(heads: seq<nat>, i: nat): (j: nat)
    ensures j < |heads| ==> i <= j && heads[j] != 0
    ensures forall k :: i <= k < j && k < |heads| ==> heads[k] == 0
    ensures i <= |heads| ==> j <= |heads|
    decreases |heads| - i
  {
    if |heads| <= i || heads[i] != 0 then i else FirstFrom(heads, i + 1)
  }

  /** Blocks of 128 units as long as there is more, then one of a class size, or two: the larger one is put on last. */
  function FiledLists(lists: seq<seq<nat>>, p: nat, nu: nat): (r: seq<seq<nat>>)
    ensures |r| == |lists|
    decreases nu
  {
    if nu == 0 then lists
    else if 128 < nu then FiledLists(Front(lists, NUM_INDEXES - 1, p), p + 128, nu - 128)
    else
      var i := U2I(nu);
      if I2U(i) == nu then Front(lists, i, p)
      else
        SplitRemainder(nu);
        var k := I2U(i - 1);
        Front(Front(lists, nu - k - 1, p + k), i - 1, p)
  }

  /** The starts of `n` pieces of 128 units, the last one first. */
  function Starts(p: nat, n: nat): seq<nat> {
    if n == 0 then [] else [p + 128 * (n - 1)] + Starts(p, n - 1)
  }

  lemma {:induction false} StartsFrom(p: nat, n: nat)
    requires 0 < n
    ensures Starts(p, n) == Starts(p + 128, n - 1) + [p]
  {
    if n > 1 {
      StartsFrom(p, n - 1);
    }
  }

  /** What is more than 128 units goes to the last list in pieces of that size, from the start of the block on. */
  lemma {:induction false} FiledRows(lists: seq<seq<nat>>, p: nat, n: nat, nu: nat)
    requires |lists| == NUM_INDEXES && 1 <= nu <= 128
    ensures FiledLists(lists, p, 128 * n + nu)
         == FiledLists(lists[NUM_INDEXES - 1 := Starts(p, n) + lists[NUM_INDEXES - 1]], p + 128 * n, nu)
    decreases n
  {
    var last := lists[NUM_INDEXES - 1];
    if n == 0 {
      assert Starts(p, 0) + last == last;
      assert lists[NUM_INDEXES - 1 := last] == lists;
    } else {
      var next := Front(lists, NUM_INDEXES - 1, p);
      FiledRows(next, p + 128, n - 1, nu);
      StartsFrom(p, n);
      assert Starts(p + 128, n - 1) + ([p] + last) == Starts(p, n) + last;
      assert next[NUM_INDEXES - 1 := Starts(p, n) + last] == lists[NUM_INDEXES - 1 := Starts(p, n) + last];
    }
  }

  /** The rest is one piece of the largest class that is not larger, at its start, and if that is not all, one more. */
  lemma FiledParts(lists: seq<seq<nat>>, p: nat, nu: nat) returns (i: nat)
    requires 1 <= nu <= 128
    ensures i < NUM_INDEXES && I2U(i) <= nu && (i + 1 < NUM_INDEXES ==> nu < I2U(i + 1))
    ensures nu == I2U(i) ==> FiledLists(lists, p, nu) == Front(lists, i, p)
    ensures I2U(i) < nu ==>
              && nu - I2U(i) <= 3
              && FiledLists(lists, p, nu) == Front(Front(lists, nu - I2U(i) - 1, p + I2U(i)), i, p)
  {
    i := U2I(nu);
    SmallestClass(nu, i);
    if I2U(i) == nu {
      if i + 1 < NUM_INDEXES {
        ClassStep(i + 1);
      }
    } else {
      SplitRemainder(nu);
      i := i - 1;
    }
  }

  // ---------- runs ----------

  /** Behind a loose block there is no other one, unless together they would have `limit` units. */
  ghost predicate EndOk(s: Space, limit: nat, b: nat) {
    b in s.loose && b in s.tiles.size ==>
      var n := b + s.tiles.size[b];
      n in s.loose && n in s.tiles.size ==> 0 < limit <= s.tiles.size[b] + s.tiles.size[n]
  }

  ghost predicate Free(s: Space, b: nat) {
    b in s.tiles.size && b !in s.live
  }

  ghost predicate FreeUnit(s: Space, u: nat) {
    u in s.tiles.owner && s.tiles.owner[u] !in s.live
  }

  ghost predicate FreeUnits(s: Space, x: nat, y: nat) {
    forall u :: x <= u < y ==> FreeUnit(s, u)
  }

  ghost predicate Stretch(s: Space, limit: nat, x: nat, y: nat, b: nat) {
    x <= b < y && limit <= y - x && FreeUnits(s, x, y)
  }

  /** A limit is set, and at least so many free units lie in a row around `b`. */
  ghost predicate LongFree(s: Space, limit: nat, b: nat) {
    0 < limit && exists x: nat, y: nat :: Stretch(s, limit, x, y, b)
  }

  /**
    Of three free blocks in a row the first one has 128 units: no free unit could have gone into a larger block. Only
    where free units in a row reach the limit it may be otherwise.
   */
  ghost predicate RunOk(s: Space, limit: nat, b: nat) {
    Free(s, b) ==>
      var n := b + s.tiles.size[b];
      Free(s, n) && Free(s, n + s.tiles.size[n]) ==> s.tiles.size[b] == 128 || LongFree(s, limit, b)
  }

  /** While loose blocks are put back: nothing free is behind them, and what is listed is not followed by one. */
  ghost predicate TidyAt(s: Space, limit: nat, b: nat) {
    Free(s, b) && !LongFree(s, limit, b) ==>
      var n := b + s.tiles.size[b];
      if b in s.loose then !Free(s, n) else n !in s.loose && RunOk(s, limit, b)
  }

  ghost predicate Tidy(s: Space, limit: nat) {
    forall b :: TidyAt(s, limit, b)
  }

  lemma NoLongFree(s: Space, b: nat)
    ensures !LongFree(s, 0, b)
  {
  }

  lemma FreeBlock(s: Space, b: nat)
    requires Tiled(s.tiles) && Free(s, b)
    ensures 0 < s.tiles.size[b] && FreeUnits(s, b, b + s.tiles.size[b])
  {
    hide Tiled;
    Owned(s.tiles, b, b);
    forall u: nat | b <= u < b + s.tiles.size[b] ensures FreeUnit(s, u) {
      Owned(s.tiles, b, u);
    }
  }

  /** What is long around one unit is long around another one that free units lead to. */
  lemma LongNear(s: Space, limit: nat, lo: nat, hi: nat, a: nat, c: nat)
    requires FreeUnits(s, lo, hi) && lo <= a < hi && lo <= c < hi && LongFree(s, limit, c)
    ensures LongFree(s, limit, a)
  {
    hide FreeUnit;
    var x: nat, y: nat :| Stretch(s, limit, x, y, c);
    var x', y' := if x < lo then x else lo, if y < hi then hi else y;
    assert Stretch(s, limit, x', y', a);
  }

  /** A long stretch that reaches the next free block reaches this one. */
  lemma LongNext(s: Space, limit: nat, b: nat)
    requires Tiled(s.tiles) && Free(s, b) && Free(s, b + s.tiles.size[b]) && LongFree(s, limit, b + s.tiles.size[b])
    ensures LongFree(s, limit, b)
  {
    hide Tiled;
    hide FreeUnit;
    hide LongFree;
    var n := b + s.tiles.size[b];
    FreeBlock(s, b);
    FreeBlock(s, n);
    LongNear(s, limit, b, n + s.tiles.size[n], b, n);
  }

  /** A block between `node` and `end`, when that is cut in pieces. */
  ghost predicate PieceOk(t: Tiles, node: nat, end: nat, b: nat) {
    b in t.size && node <= b < end ==>
      var n := b + t.size[b];
      && n <= end
      && (n < end ==> n in t.size)
      && (n < end && n in t.size && n + t.size[n] < end ==> t.size[b] == 128)
  }

  ghost predicate Pieces(t: Tiles, node: nat, end: nat) {
    forall b :: PieceOk(t, node, end, b)
  }

  lemma OnePiece(t: Tiles, p: nat)
    requires Tiled(t) && p in t.size
    ensures Pieces(t, p, p + t.size[p])
  {
    hide Tiled;
    var end := p + t.size[p];
    forall b: nat ensures PieceOk(t, p, end, b) {
      if b in t.size && p < b {
        BlocksDisjoint(t, p, b);
      }
    }
  }

  lemma TwoPieces(t: Tiles, p: nat)
    requires Tiled(t) && p in t.size && p + t.size[p] in t.size
    ensures Pieces(t, p, p + t.size[p] + t.size[p + t.size[p]])
  {
    hide Tiled;
    var n := p + t.size[p];
    OwnStart(t, p);
    OwnStart(t, n);
    var end := n + t.size[n];
    forall b: nat ensures PieceOk(t, p, end, b) {
      if b in t.size {
        if p < b {
          BlocksDisjoint(t, p, b);
        }
        if n < b {
          BlocksDisjoint(t, n, b);
        }
      }
    }
  }

  /** Blocks of 128 units, one behind the other, from `node` to `p`. */
  ghost predicate Rows(t: Tiles, node: nat, p: nat) {
    forall b :: RowOk(t, node, p, b)
  }

  ghost predicate RowOk(t: Tiles, node: nat, p: nat, b: nat) {
    b in t.size && node <= b < p ==> t.size[b] == 128 && b + 128 <= p && b + 128 in t.size
  }

  lemma NoRows(t: Tiles, node: nat)
    ensures Rows(t, node, node)
  {
  }

  /** One more block of 128 units is cut off. */
  lemma NextRow(t: Tiles, r: Tiles, node: nat, p: nat)
    requires Tiled(t) && Tiled(r) && Rows(t, node, p) && p in t.size && KeptBut(t, r, p)
    requires p in r.size && r.size[p] == 128 && p + 128 in r.size
    ensures Rows(r, node, p + 128)
  {
    hide Tiled;
    var end := p + 128;
    forall b: nat ensures RowOk(r, node, end, b) {
      assert RowOk(t, node, p, b);
      if b < p {
        OutsideSame(t, r, p, b);
      } else if b in r.size && p < b {
        BlocksDisjoint(r, p, b);
      }
    }
  }

  lemma RowsAndPieces(t: Tiles, r: Tiles, node: nat, p: nat, end: nat)
    requires Tiled(t) && Tiled(r) && Rows(t, node, p) && p in t.size && p in r.size && KeptBut(t, r, p)
    requires Pieces(r, p, end) && p < end
    ensures Pieces(r, node, end)
  {
    hide Tiled;
    forall b: nat ensures PieceOk(r, node, end, b) {
      assert RowOk(t, node, p, b) && PieceOk(r, p, end, b);
      if b < p {
        OutsideSame(t, r, p, b);
      }
    }
  }

  /** When all free blocks are loose and none is behind another, unless they reach the limit, all is tidy. */
  lemma StartTidy(s: Space, limit: nat)
    requires Sound(s) && NothingListed(s) && forall b :: EndOk(s, limit, b)
    ensures Tidy(s, limit)
  {
    hide Sound;
    hide LongFree;
    hide Tiled;
    SoundBasics(s);
    forall b: nat ensures TidyAt(s, limit, b) {
      if Free(s, b) {
        FreeLoose(s, b);
        assert EndOk(s, limit, b);
        if Free(s, b + s.tiles.size[b]) {
          FreeLoose(s, b + s.tiles.size[b]);
          TwoLong(s, limit, b);
        }
      }
    }
  }

  lemma TwoLong(s: Space, limit: nat, b: nat)
    requires Tiled(s.tiles) && Free(s, b) && Free(s, b + s.tiles.size[b])
    requires 0 < limit <= s.tiles.size[b] + s.tiles.size[b + s.tiles.size[b]]
    ensures LongFree(s, limit, b)
  {
    hide Tiled;
    hide FreeUnit;
    var n := b + s.tiles.size[b];
    FreeBlock(s, b);
    FreeBlock(s, n);
    assert Stretch(s, limit, b, n + s.tiles.size[n], b);
  }

  /** Joining two blocks leaves the others with what they had behind them, or with more. */
  lemma JoinedEnds(s: Space, r: Space, x: nat, limit: nat, b: nat)
    requires Tiled(s.tiles) && x in s.tiles.size && x + s.tiles.size[x] in s.tiles.size && EndOk(s, limit, b) && b != x
    requires r.tiles == Join(s.tiles, x) && r.loose == s.loose - {x + s.tiles.size[x]}
    ensures EndOk(r, limit, b)
  {
    hide Tiled;
    OwnStart(s.tiles, x);
  }

  lemma JoinedAll(s: Space, r: Space, x: nat, limit: nat, met: set<nat>)
    requires Tiled(s.tiles) && x in s.tiles.size && x + s.tiles.size[x] in s.tiles.size && x !in met
    requires r.tiles == Join(s.tiles, x) && r.loose == s.loose - {x + s.tiles.size[x]}
    requires forall b :: b in met ==> EndOk(s, limit, b)
    ensures forall b :: b in met ==> EndOk(r, limit, b)
  {
    hide Tiled;
    hide EndOk;
    forall b | b in met ensures EndOk(r, limit, b) {
      JoinedEnds(s, r, x, limit, b);
    }
  }

  lemma FreeLoose(s: Space, b: nat)
    requires Sound(s) && NothingListed(s) && Free(s, b)
    ensures b in s.loose
  {
    hide Tiled;
    assert HomeOk(s, b);
  }

  /** Units keep their blocks outside the one cut up. */
  lemma OutsideSame(s: Tiles, r: Tiles, node: nat, b: nat)
    requires Tiled(s) && Tiled(r) && node in s.size && KeptBut(s, r, node)
    requires b < node || node + s.size[node] <= b
    ensures b in r.size <==> b in s.size
    ensures b in s.size ==> r.size[b] == s.size[b]
  {
    hide Tiled;
    OwnStart(s, node);
    if b in r.size && b !in s.size {
      OwnStart(r, b);
      OwnerOf(s, b);
      var o := s.owner[b];
      Owned(s, o, b);
      if o != node {
        OwnStart(r, o);
        Owned(r, o, b);
      }
    }
  }

  /** No block starts outside and ends inside. */
  lemma NoneInto(s: Tiles, node: nat, b: nat)
    requires Tiled(s) && node in s.size && b in s.size && b != node
    ensures var n := b + s.size[b];
            n <= node || node + s.size[node] <= b
  {
    hide Tiled;
    if b < node {
      BlocksDisjoint(s, b, node);
    } else {
      BlocksDisjoint(s, node, b);
    }
  }

  /** Cutting up a loose block frees no unit and takes none. */
  lemma FreeUnitStays(s: Space, r: Space, node: nat, u: nat)
    requires Tiled(s.tiles) && Tiled(r.tiles) && Free(s, node) && KeptBut(s.tiles, r.tiles, node)
    requires s.live <= s.tiles.size.Keys && r.live == s.live && FreeUnit(s, u)
    ensures FreeUnit(r, u)
  {
    hide Tiled;
    OwnStart(s.tiles, node);
    if node <= u < node + s.tiles.size[node] {
      Owned(s.tiles, node, u);
      var o := r.tiles.owner[u];
      OwnerOf(r.tiles, u);
      assert o in s.live ==> o != node && s.tiles.size[o] == r.tiles.size[o];
      forall b: nat | b in s.tiles.size ensures b <= u < b + s.tiles.size[b] ==> s.tiles.owner[u] == b {
        Owned(s.tiles, b, u);
      }
    } else {
      OwnerOf(s.tiles, u);
      Owned(r.tiles, s.tiles.owner[u], u);
    }
  }

  lemma LongStays(s: Space, r: Space, limit: nat, node: nat, b: nat)
    requires Tiled(s.tiles) && Tiled(r.tiles) && Free(s, node) && KeptBut(s.tiles, r.tiles, node)
    requires s.live <= s.tiles.size.Keys && r.live == s.live && LongFree(s, limit, b)
    ensures LongFree(r, limit, b)
  {
    hide Tiled;
    hide FreeUnit;
    hide KeptBut;
    hide Free;
    var x: nat, y: nat :| Stretch(s, limit, x, y, b);
    forall u: nat | x <= u < y ensures FreeUnit(r, u) {
      FreeUnitStays(s, r, node, u);
    }
    assert Stretch(r, limit, x, y, b);
  }

  /** Putting a loose block back in pieces keeps all tidy. */
  lemma FiledTidy(s: Space, r: Space, limit: nat, node: nat)
    requires Sound(s) && Sound(r) && node in s.loose && node in s.tiles.size && Tidy(s, limit)
    requires r.live == s.live && r.loose == s.loose - {node} && KeptBut(s.tiles, r.tiles, node)
    requires Pieces(r.tiles, node, node + s.tiles.size[node])
    ensures Tidy(r, limit)
  {
    hide Sound;
    hide Tiled;
    hide LongFree;
    SoundBasics(s);
    SoundBasics(r);
    forall b: nat ensures TidyAt(r, limit, b) {
      if Free(r, b) {
        if LongFree(s, limit, b) {
          LongStays(s, r, limit, node, b);
        } else if node <= b < node + s.tiles.size[node] {
          InsideTidy(s, r, limit, node, b);
        } else {
          OutsideTidy(s, r, limit, node, b);
        }
      }
    }
  }

  lemma FreeOutside(s: Space, r: Space, node: nat, b: nat)
    requires Tiled(s.tiles) && Tiled(r.tiles) && node in s.tiles.size && KeptBut(s.tiles, r.tiles, node)
    requires r.live == s.live && (b < node || node + s.tiles.size[node] <= b)
    ensures Free(r, b) <==> Free(s, b)
    ensures Free(s, b) ==> r.tiles.size[b] == s.tiles.size[b]
  {
    hide Tiled;
    OutsideSame(s.tiles, r.tiles, node, b);
  }

  lemma InsideTidy(s: Space, r: Space, limit: nat, node: nat, b: nat)
    requires Tiled(s.tiles) && Tiled(r.tiles) && node in s.loose && node in s.tiles.size && Tidy(s, limit) && s.live !! s.loose
    requires r.live == s.live && r.loose == s.loose - {node} && KeptBut(s.tiles, r.tiles, node)
    requires s.loose <= s.tiles.size.Keys && r.loose <= r.tiles.size.Keys
    requires Pieces(r.tiles, node, node + s.tiles.size[node])
    requires Free(r, b) && node <= b < node + s.tiles.size[node] && !LongFree(s, limit, b)
    ensures TidyAt(r, limit, b)
  {
    hide Tiled;
    hide LongFree;
    var end := node + s.tiles.size[node];
    FreeBlock(s, node);
    if LongFree(s, limit, node) {
      LongNear(s, limit, node, end, b, node);
    }
    assert TidyAt(s, limit, node) && PieceOk(r.tiles, node, end, b);
    FreeOutside(s, r, node, end);
    assert !Free(r, end);
    assert end !in s.loose;
    NotLooseInside(s, node, b);
    var n := b + r.tiles.size[b];
    if n < end {
      NotLooseInside(s, node, n);
      assert PieceOk(r.tiles, node, end, n);
    }
  }

  lemma NotLooseInside(s: Space, node: nat, b: nat)
    requires Tiled(s.tiles) && s.loose <= s.tiles.size.Keys && node in s.tiles.size
    requires node <= b < node + s.tiles.size[node]
    ensures b in s.loose ==> b == node
  {
    hide Tiled;
    if b in s.loose && b != node {
      BlocksDisjoint(s.tiles, node, b);
    }
  }

  lemma OutsideTidy(s: Space, r: Space, limit: nat, node: nat, b: nat)
    requires Tiled(s.tiles) && Tiled(r.tiles) && node in s.loose && node in s.tiles.size && Tidy(s, limit) && s.live !! s.loose
    requires r.live == s.live && r.loose == s.loose - {node} && KeptBut(s.tiles, r.tiles, node)
    requires s.loose <= s.tiles.size.Keys
    requires Free(r, b) && (b < node || node + s.tiles.size[node] <= b) && !LongFree(s, limit, b)
    ensures TidyAt(r, limit, b)
  {
    hide Tiled;
    hide LongFree;
    FreeOutside(s, r, node, b);
    assert TidyAt(s, limit, b);
    NoneInto(s.tiles, node, b);
    var n := b + s.tiles.size[b];
    FreeNext(s, r, limit, node, b, n);
    if b !in s.loose && Free(s, n) {
      if LongFree(s, limit, n) {
        LongNext(s, limit, b);
      }
      NoneInto(s.tiles, node, n);
      assert TidyAt(s, limit, n);
      FreeNext(s, r, limit, node, n, n + s.tiles.size[n]);
    }
  }

  /** What is behind a block that is no neighbour of `node` is free as it was. */
  lemma FreeNext(s: Space, r: Space, limit: nat, node: nat, b: nat, n: nat)
    requires Tiled(s.tiles) && Tiled(r.tiles) && node in s.loose && node in s.tiles.size && s.live !! s.loose
    requires r.live == s.live && KeptBut(s.tiles, r.tiles, node)
    requires Free(s, b) && b != node && n == b + s.tiles.size[b] && TidyAt(s, limit, b) && !LongFree(s, limit, b)
    ensures n != node && (Free(r, n) <==> Free(s, n)) && (Free(s, n) ==> r.tiles.size[n] == s.tiles.size[n])
  {
    hide Tiled;
    hide LongFree;
    NoneInto(s.tiles, node, b);
    assert Free(s, node);
    FreeOutside(s, r, node, n);
  }
}
