/** Units of memory owned by blocks: every owned unit lies in exactly one block, and every block owns its units. */
module Tiling {

  /** `owner` says which block start owns a unit, `size` how many units a block has. */
  datatype Tiles = Tiles(owner: map<nat, nat>, size: map<nat, nat>)

  ghost predicate OwnerOk(t: Tiles, u: nat) {
    u in t.owner ==> t.owner[u] in t.size && t.owner[u] <= u < t.owner[u] + t.size[t.owner[u]]
  }

  ghost predicate BlockOk(t: Tiles, b: nat, u: nat) {
    b in t.size ==> 0 < t.size[b] && (b <= u < b + t.size[b] ==> u in t.owner && t.owner[u] == b)
  }

  ghost predicate Tiled(t: Tiles) {
    (forall u :: OwnerOk(t, u)) && (forall b, u :: BlockOk(t, b, u))
  }

  // The quantified facts, one instance at a time.

  lemma OwnerOf(t: Tiles, u: nat)
    requires Tiled(t) && u in t.owner
    ensures t.owner[u] in t.size && t.owner[u] <= u < t.owner[u] + t.size[t.owner[u]]
  {
    assert OwnerOk(t, u);
  }

  lemma Owned(t: Tiles, b: nat, u: nat)
    requires Tiled(t) && b in t.size
    ensures 0 < t.size[b]
    ensures b <= u < b + t.size[b] ==> u in t.owner && t.owner[u] == b
  {
    assert BlockOk(t, b, u);
  }

  /** Blocks never overlap. */
  lemma BlocksDisjoint(t: Tiles, a: nat, b: nat)
    requires Tiled(t) && a in t.size && b in t.size && a < b
    ensures a + t.size[a] <= b
  {
    hide *;
    Owned(t, a, b);
    Owned(t, b, b);
  }

  /** A unit right behind a block that is owned at all starts a block. */
  lemma NextBlock(t: Tiles, b: nat)
    requires Tiled(t) && b in t.size && b + t.size[b] in t.owner
    ensures b + t.size[b] in t.size
  {
    hide *;
    var u := b + t.size[b];
    OwnerOf(t, u);
    Owned(t, b, u - 1);
    Owned(t, t.owner[u], u - 1);
  }

  lemma OwnStart(t: Tiles, b: nat)
    requires Tiled(t) && b in t.size
    ensures b in t.owner && t.owner[b] == b && 0 < t.size[b]
  {
    Owned(t, b, b);
  }

  lemma TiledIntro(t: Tiles)
    requires (forall u :: OwnerOk(t, u)) && (forall b, u :: BlockOk(t, b, u))
    ensures Tiled(t)
  {
  }

  // ---------- cutting, joining, adding and dropping blocks ----------

  ghost function Cut(t: Tiles, b: nat, k: nat): Tiles
    requires b in t.size && 0 < k < t.size[b]
  {
    Tiles(map u | u in t.owner :: if t.owner[u] == b && b + k <= u then b + k else t.owner[u],
          t.size[b := k][b + k := t.size[b] - k])
  }

  lemma CutTiled(t: Tiles, b: nat, k: nat)
    requires Tiled(t) && b in t.size && 0 < k < t.size[b]
    ensures Tiled(Cut(t, b, k)) && Cut(t, b, k).owner.Keys == t.owner.Keys && b + k !in t.size
  {
    hide Tiled;
    var r := Cut(t, b, k);
    Owned(t, b, b + k);
    if b + k in t.size {
      OwnStart(t, b + k);
    }
    forall u: nat ensures OwnerOk(r, u) {
      if u in r.owner {
        OwnerOf(t, u);
      }
    }
    forall c: nat, u: nat ensures BlockOk(r, c, u) {
      if c in r.size {
        Owned(t, if c == b + k then b else c, u);
      }
    }
    TiledIntro(r);
  }

  ghost function Join(t: Tiles, b: nat): Tiles
    requires b in t.size && b + t.size[b] in t.size
  {
    var c := b + t.size[b];
    Tiles(map u | u in t.owner :: if t.owner[u] == c then b else t.owner[u],
          (t.size - {c})[b := t.size[b] + t.size[c]])
  }

  lemma JoinIs(t: Tiles, b: nat)
    requires b in t.size && b + t.size[b] in t.size
    ensures var (r, c) := (Join(t, b), b + t.size[b]);
            && r.owner.Keys == t.owner.Keys && r.size.Keys == t.size.Keys - {c} + {b}
            && (forall u :: u in t.owner ==> r.owner[u] == if t.owner[u] == c then b else t.owner[u])
            && r.size[b] == t.size[b] + t.size[c]
            && forall d :: d in t.size && d != c && d != b ==> r.size[d] == t.size[d]
  {
  }

  lemma JoinTiled(t: Tiles, b: nat)
    requires Tiled(t) && b in t.size && b + t.size[b] in t.size
    ensures Tiled(Join(t, b)) && Join(t, b).owner.Keys == t.owner.Keys && 0 < t.size[b]
  {
    hide Tiled;
    var c := b + t.size[b];
    OwnStart(t, b);
    OwnStart(t, c);
    var r := Join(t, b);
    forall u: nat ensures OwnerOk(r, u) {
      if u in r.owner {
        OwnerOf(t, u);
      }
    }
    forall d: nat, u: nat ensures BlockOk(r, d, u) {
      if d in r.size {
        if d == b {
          assert r.size[d] == t.size[b] + t.size[c];
          Owned(t, b, u);
          Owned(t, c, u);
        } else {
          assert d != c && r.size[d] == t.size[d];
          Owned(t, d, u);
        }
      }
    }
    TiledIntro(r);
  }

  ghost predicate Within(b: nat, k: nat, u: nat) {
    b <= u < b + k
  }

  ghost function Range(b: nat, k: nat): set<nat> {
    set u: nat | b <= u < b + k && Within(b, k, u)
  }

  ghost function Add(t: Tiles, b: nat, k: nat): Tiles {
    Tiles(t.owner + (map u | u in Range(b, k) :: b), t.size[b := k])
  }

  lemma AddTiled(t: Tiles, b: nat, k: nat)
    requires Tiled(t) && 0 < k && Range(b, k) !! t.owner.Keys
    ensures Tiled(Add(t, b, k)) && Add(t, b, k).owner.Keys == t.owner.Keys + Range(b, k) && b !in t.size
  {
    hide Tiled;
    var r := Add(t, b, k);
    assert b in Range(b, k);
    if b in t.size {
      OwnStart(t, b);
    }
    forall u: nat ensures OwnerOk(r, u) {
      if u in r.owner {
        if u !in Range(b, k) {
          OwnerOf(t, u);
        }
      }
    }
    forall c: nat, u: nat ensures BlockOk(r, c, u) {
      if c in r.size {
        if c != b {
          Owned(t, c, u);
        }
      }
    }
    TiledIntro(r);
  }

  ghost function Drop(t: Tiles, b: nat): Tiles
    requires b in t.size
  {
    Tiles(map u | u in t.owner && t.owner[u] != b :: t.owner[u], t.size - {b})
  }

  lemma DropTiled(t: Tiles, b: nat)
    requires Tiled(t) && b in t.size
    ensures Tiled(Drop(t, b)) && Drop(t, b).owner.Keys == t.owner.Keys - Range(b, t.size[b])
    ensures Range(b, t.size[b]) <= t.owner.Keys
  {
    hide Tiled;
    var r := Drop(t, b);
    forall u | u in t.owner ensures t.owner[u] == b <==> u in Range(b, t.size[b]) {
      OwnerOf(t, u);
      Owned(t, b, u);
    }
    forall u | u in Range(b, t.size[b]) ensures u in t.owner {
      Owned(t, b, u);
    }
    forall u: nat ensures OwnerOk(r, u) {
      if u in r.owner {
        OwnerOf(t, u);
      }
    }
    forall c: nat, u: nat ensures BlockOk(r, c, u) {
      if c in r.size {
        Owned(t, c, u);
      }
    }
    TiledIntro(r);
  }

  // ---------- counting units ----------

  /** The units owned by the blocks of a set. */
  ghost function Units(t: Tiles, blocks: set<nat>): set<nat> {
    set u | u in t.owner && t.owner[u] in blocks
  }

  lemma {:induction false} RangeCard(b: nat, k: nat)
    ensures |Range(b, k)| == k
  {
    if k == 0 {
      assert Range(b, 0) == {};
    } else {
      RangeCard(b, k - 1);
      assert Range(b, k) == Range(b, k - 1) + {b + k - 1};
    }
  }

  lemma TwoRanges(keys: set<nat>, a: nat, n: nat, b: nat, m: nat)
    requires a + n <= b && forall u: nat :: u in keys <==> a <= u < a + n || b <= u < b + m
    ensures |keys| == n + m
  {
    RangeCard(a, n);
    RangeCard(b, m);
    forall u: nat ensures u in keys <==> u in Range(a, n) + Range(b, m) {
      assert Within(a, n, u) <==> a <= u < a + n;
      assert Within(b, m, u) <==> b <= u < b + m;
    }
    assert keys == Range(a, n) + Range(b, m) && Range(a, n) !! Range(b, m);
  }

  /** A block owns as many units as its size. */
  lemma OneBlockUnits(t: Tiles, b: nat)
    requires Tiled(t) && b in t.size
    ensures |Units(t, {b})| == t.size[b]
  {
    hide Tiled;
    forall u | u in t.owner ensures t.owner[u] == b <==> u in Range(b, t.size[b]) {
      OwnerOf(t, u);
      Owned(t, b, u);
    }
    forall u | u in Range(b, t.size[b]) ensures u in t.owner {
      Owned(t, b, u);
    }
    assert Units(t, {b}) == Range(b, t.size[b]);
    RangeCard(b, t.size[b]);
  }

  lemma UnitsSplit(t: Tiles, a: set<nat>, b: set<nat>)
    requires a !! b
    ensures |Units(t, a + b)| == |Units(t, a)| + |Units(t, b)|
  {
    assert Units(t, a + b) == Units(t, a) + Units(t, b);
    assert Units(t, a) !! Units(t, b);
  }

  /** Everything owned is owned by some block. */
  lemma AllUnits(t: Tiles)
    requires Tiled(t)
    ensures Units(t, t.size.Keys) == t.owner.Keys
  {
    forall u | u in t.owner ensures t.owner[u] in t.size {
      OwnerOf(t, u);
    }
  }
}
