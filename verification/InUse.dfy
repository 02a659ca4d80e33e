/** Blocks in use: what it means that an allocator leaves them alone, and small facts about chains of blocks. */
module InUse {
  import opened Tiling
  import opened SizeClasses
  import opened FreeSpace

  /** Blocks and sizes survive, except `x`. */
  ghost predicate KeptBut(t: Tiles, r: Tiles, x: nat) {
    && r.owner.Keys == t.owner.Keys
    && forall b :: b in t.size && b != x ==> b in r.size && r.size[b] == t.size[b]
  }

  /** The same space, some blocks of which no longer count as in use. */
  ghost function Without(s: Space, gone: set<nat>): Space {
    s.(live := s.live - gone)
  }

  /** The block that owns the last unit. */
  ghost function Top(s: Space, units: nat): nat {
    if units != 0 && units - 1 in s.tiles.owner then s.tiles.owner[units - 1] else 0
  }

  /** The units from `low` to `high` all belong to blocks not in use. */
  ghost predicate FreeRun(s: Space, low: nat, high: nat) {
    low <= high && forall u :: low <= u < high ==> u in s.tiles.owner && s.tiles.owner[u] !in s.live
  }

  /** A block in use stays one, of the same size, with the same content. */
  ghost predicate LiveBlockKept<T>(s: Space, a: seq<T>, r: Space, c: seq<T>, b: nat) {
    b in s.live ==>
      && b in r.live && b in s.tiles.size && b in r.tiles.size && r.tiles.size[b] == s.tiles.size[b]
      && |c| == |a| && forall u :: b <= u < b + s.tiles.size[b] && u < |a| ==> c[u] == a[u]
  }

  ghost predicate LiveKept<T>(s: Space, a: seq<T>, r: Space, c: seq<T>) {
    forall b :: LiveBlockKept(s, a, r, c, b)
  }

  lemma LiveKeptSelf<T>(s: Space, a: seq<T>)
    requires Sound(s)
    ensures LiveKept(s, a, s, a)
  {
    hide Sound;
    SoundBasics(s);
    forall b: nat ensures LiveBlockKept(s, a, s, a, b) {
    }
  }

  lemma LiveKeptTrans<T>(s: Space, a: seq<T>, r: Space, c: seq<T>, q: Space, d: seq<T>)
    requires LiveKept(s, a, r, c) && LiveKept(r, c, q, d)
    ensures LiveKept(s, a, q, d)
  {
    forall b: nat ensures LiveBlockKept(s, a, q, d, b) {
      assert LiveBlockKept(s, a, r, c, b) && LiveBlockKept(r, c, q, d, b);
    }
  }

  lemma LiveKeptLess<T>(s: Space, a: seq<T>, r: Space, c: seq<T>, gone: set<nat>)
    requires LiveKept(s, a, r, c)
    ensures LiveKept(Without(s, gone), a, r, c)
    ensures LiveKept(Without(s, gone), a, Without(r, gone), c)
  {
    forall b: nat ensures LiveBlockKept(Without(s, gone), a, r, c, b) {
      assert LiveBlockKept(s, a, r, c, b);
    }
    forall b: nat ensures LiveBlockKept(Without(s, gone), a, Without(r, gone), c, b) {
      assert LiveBlockKept(s, a, r, c, b);
    }
  }

  /** Only units that no block in use owns are written. */
  ghost predicate WriteOk<T>(s: Space, a: seq<T>, c: seq<T>, u: nat) {
    u < |a| && u < |c| && c[u] != a[u] ==> !(u in s.tiles.owner && s.tiles.owner[u] in s.live)
  }

  lemma KeepsLive<T>(s: Space, a: seq<T>, r: Space, c: seq<T>)
    requires Tiled(s.tiles) && s.live <= s.tiles.size.Keys && s.live <= r.live && |c| == |a|
    requires forall b :: b in s.live && b in s.tiles.size ==> b in r.tiles.size && r.tiles.size[b] == s.tiles.size[b]
    requires forall u :: WriteOk(s, a, c, u)
    ensures LiveKept(s, a, r, c)
  {
    hide Tiled;
    forall b: nat ensures LiveBlockKept(s, a, r, c, b) {
      if b in s.live {
        forall u | b <= u < b + s.tiles.size[b] && u < |a| ensures c[u] == a[u] {
          Owned(s.tiles, b, u);
          assert WriteOk(s, a, c, u);
        }
      }
    }
  }

  /** The units of the arena that no block in use owns. */
  ghost function Unused(s: Space): set<nat> {
    set u | u in s.tiles.owner && s.tiles.owner[u] !in s.live
  }

  lemma OwnerKept<T>(s: Space, a: seq<T>, r: Space, c: seq<T>, u: nat)
    requires Tiled(s.tiles) && Tiled(r.tiles) && LiveKept(s, a, r, c)
    requires u in s.tiles.owner && s.tiles.owner[u] in s.live
    ensures u in r.tiles.owner && r.tiles.owner[u] == s.tiles.owner[u]
  {
    hide Tiled;
    OwnerOf(s.tiles, u);
    var b := s.tiles.owner[u];
    assert LiveBlockKept(s, a, r, c, b);
    Owned(r.tiles, b, u);
  }

  lemma SameUnused<T>(s: Space, a: seq<T>, r: Space, c: seq<T>)
    requires Sound(s) && Sound(r) && LiveKept(s, a, r, c) && r.live == s.live
    requires r.tiles.owner.Keys == s.tiles.owner.Keys
    ensures Unused(r) == Unused(s)
  {
    hide Sound;
    hide Tiled;
    SoundBasics(s);
    SoundBasics(r);
    forall u | u in s.tiles.owner ensures s.tiles.owner[u] in s.live <==> r.tiles.owner[u] in r.live {
      assert u in r.tiles.owner.Keys;
      if s.tiles.owner[u] in s.live {
        OwnerKept(s, a, r, c, u);
      }
      if r.tiles.owner[u] in r.live {
        OwnerOf(r.tiles, u);
        assert LiveBlockKept(s, a, r, c, r.tiles.owner[u]);
        Owned(s.tiles, r.tiles.owner[u], u);
      }
    }
    assert r.tiles.owner.Keys == s.tiles.owner.Keys;
  }

  lemma {:induction false} LinkedSame(link: seq<nat>, m: seq<nat>, head: nat, l: seq<nat>)
    requires Linked(link, head, l) && |m| == |link| && forall x :: x in l && x < |link| ==> m[x] == link[x]
    ensures Linked(m, head, l)
    decreases |l|
  {
    if l == [] {
    } else {
      assert l[0] in l && forall x :: x in l[1..] ==> x in l;
      LinkedSame(link, m, link[head], l[1..]);
    }
  }

  /** Two memories that differ in one word outside a list agree about the list. */
  lemma LinkedOther(link: seq<nat>, m: seq<nat>, head: nat, l: seq<nat>, p: nat)
    requires Linked(link, head, l) && |m| == |link| && p !in l
    requires forall u :: 0 <= u < |link| && u != p ==> m[u] == link[u]
    ensures Linked(m, head, l)
  {
    if p < |link| {
      assert m == link[p := m[p]];
      LinkedFrame(link, head, l, p, m[p]);
    } else {
      assert m == link;
    }
  }

  lemma RelinkSound(s: Space, p: nat, x: nat)
    requires Sound(s) && NothingListed(s) && p < |s.link|
    ensures Sound(s.(link := s.link[p := x]))
  {
    hide Sound;
    SoundBasics(s);
    var r := s.(link := s.link[p := x]);
    forall j: nat ensures ListOk(r, j) {
    }
    forall j: nat, a: nat ensures NodeOk(r, j, a) {
    }
    forall b: nat ensures HomeOk(r, b) {
      if b in s.tiles.size {
        HomeOf(s, b);
      }
    }
    SoundIntro(r);
  }

  lemma EmptyFlat(lists: seq<seq<nat>>)
    ensures Flat(lists, |lists|) == []
  {
  }

  lemma NoDupDrop(a: seq<nat>, b: seq<nat>)
    requires b != [] && NoDup(a + b)
    ensures NoDup(a + b[1..])
  {
    var c, d := a + b, a + b[1..];
    forall j, k | 0 <= j < k < |d| ensures d[j] != d[k] {
      var j', k' := if j < |a| then j else j + 1, if k < |a| then k else k + 1;
      assert d[j] == c[j'] && d[k] == c[k'];
    }
  }

  lemma NoDupPrefix(a: seq<nat>, b: seq<nat>)
    requires b != [] && NoDup(a + b)
    ensures NoDup(a) && b[0] !in a
  {
    var c := a + b;
    forall j, k | 0 <= j < k < |a| ensures a[j] != a[k] {
      assert c[j] == a[j] && c[k] == a[k];
    }
    forall j | 0 <= j < |a| ensures a[j] != b[0] {
      assert c[j] == a[j] && c[|a|] == b[0];
    }
  }

  /** The units of a memory of `size` bytes: seven eighths of it. */
  function UnitShare(size: nat): (r: nat)
    ensures 0x800 <= size ==> 129 <= r && 12 * r < size
  {
    size / 8 / 12 * 7
  }

  /** The number of units that cover `size` bytes, and one more. */
  function UnitCount(size: nat): (r: nat)
    ensures size + 12 <= 12 * r < size + 24
  {
    (size + 11) / 12 + 1
  }

  lemma StartTiles(a: nat, b: nat)
    requires a + 128 <= b
    ensures var t := Add(Add(Tiles(map[], map[]), a, 128), b, 1);
            && Tiled(t) && t.size == map[a := 128, b := 1]
            && forall u :: u in t.owner <==> a <= u < a + 128 || u == b
  {
    hide Tiled;
    var none := Tiles(map[], map[]);
    TiledIntro(none);
    AddTiled(none, a, 128);
    var one := Add(none, a, 128);
    forall u: nat ensures u in one.owner <==> a <= u < a + 128 {
      assert u in one.owner.Keys <==> u in Range(a, 128);
      assert Within(a, 128, u) <==> a <= u < a + 128;
    }
    AddTiled(one, b, 1);
    var t := Add(one, b, 1);
    forall u: nat ensures u in t.owner <==> a <= u < a + 128 || u == b {
      assert u in t.owner.Keys <==> u in one.owner.Keys || u in Range(b, 1);
      assert Within(b, 1, u) <==> u == b;
    }
  }
}
