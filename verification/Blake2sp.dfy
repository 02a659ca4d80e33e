/** BLAKE2sp: eight interleaved BLAKE2s leaves under a root, streamed through a buffer of one stripe. */
module Blake2sp {
  import opened Options
  import opened Words
  import opened Blake2sSpec
  import B = Blake2s

  const DEGREE: nat := 8
  const STRIPE: nat := 512

  // ---------- what each leaf is fed ----------

  /** The part of an unfinished stripe that goes to leaf `i`. */
  function Part(m: seq<Byte>, i: nat): seq<Byte> {
    if |m| <= BLOCKBYTES * i then []
    else if |m| <= BLOCKBYTES * (i + 1) then m[BLOCKBYTES * i..]
    else m[BLOCKBYTES * i..BLOCKBYTES * (i + 1)]
  }

  /** Every eighth block of the message, from block `i` on. */
  function Stripes(m: seq<Byte>, i: nat): seq<Byte>
    requires i < DEGREE
    decreases |m|
  {
    if |m| < STRIPE then Part(m, i) else Part(m[..STRIPE], i) + Stripes(m[STRIPE..], i)
  }

  /** Whole stripes first: what follows is divided by itself. */
  lemma {:induction false} StripesAppend(m: seq<Byte>, k: nat, more: seq<Byte>, i: nat)
    requires |m| == STRIPE * k && i < DEGREE
    ensures Stripes(m + more, i) == Stripes(m, i) + Stripes(more, i)
    decreases k
  {
    if k == 0 {
      assert m + more == more;
    } else {
      assert (m + more)[..STRIPE] == m[..STRIPE];
      assert (m + more)[STRIPE..] == m[STRIPE..] + more;
      StripesAppend(m[STRIPE..], k - 1, more, i);
    }
  }

  /** Leaf `i` gets, as its block `k`, block `8 * k + i` of the message: byte `r` of the one is byte `r` of the other. */
  lemma {:induction false} StripeByte(m: seq<Byte>, i: nat, k: nat, r: nat)
    requires i < DEGREE && r < BLOCKBYTES
    ensures BLOCKBYTES * k + r < |Stripes(m, i)| <==> BLOCKBYTES * (DEGREE * k + i) + r < |m|
    ensures BLOCKBYTES * k + r < |Stripes(m, i)| ==>
              Stripes(m, i)[BLOCKBYTES * k + r] == m[BLOCKBYTES * (DEGREE * k + i) + r]
    decreases k
  {
    hide Stripes;
    if |m| < STRIPE {
      LastByte(m, i, k, r);
    } else if k == 0 {
      FirstByte(m, i, r);
    } else {
      LaterByte(m, i, k, r);
      StripeByte(m[STRIPE..], i, k - 1, r);
    }
  }

  lemma LastByte(m: seq<Byte>, i: nat, k: nat, r: nat)
    requires i < DEGREE && r < BLOCKBYTES && |m| < STRIPE
    ensures BLOCKBYTES * k + r < |Stripes(m, i)| <==> BLOCKBYTES * (DEGREE * k + i) + r < |m|
    ensures BLOCKBYTES * k + r < |Stripes(m, i)| ==>
              Stripes(m, i)[BLOCKBYTES * k + r] == m[BLOCKBYTES * (DEGREE * k + i) + r]
  {
    var part := Part(m, i);
    assert Stripes(m, i) == part && |part| <= BLOCKBYTES;
    if k == 0 {
    } else {
      assert BLOCKBYTES * k + r >= BLOCKBYTES && BLOCKBYTES * (DEGREE * k + i) + r >= STRIPE;
    }
  }

  lemma FirstByte(m: seq<Byte>, i: nat, r: nat)
    requires i < DEGREE && r < BLOCKBYTES && STRIPE <= |m|
    ensures r < |Stripes(m, i)| && Stripes(m, i)[r] == m[BLOCKBYTES * i + r]
  {
    var first := m[..STRIPE];
    var part := Part(first, i);
    assert |part| == BLOCKBYTES && part[r] == first[BLOCKBYTES * i + r];
  }

  lemma LaterByte(m: seq<Byte>, i: nat, k: nat, r: nat)
    requires i < DEGREE && r < BLOCKBYTES && |m| >= STRIPE && k > 0
    ensures var rest := Stripes(m[STRIPE..], i);
            && |Stripes(m, i)| == BLOCKBYTES + |rest|
            && (BLOCKBYTES * k + r < |Stripes(m, i)| ==>
                  Stripes(m, i)[BLOCKBYTES * k + r] == rest[BLOCKBYTES * (k - 1) + r])
  {
    var first, rest := Part(m[..STRIPE], i), Stripes(m[STRIPE..], i);
    assert |first| == BLOCKBYTES && Stripes(m, i) == first + rest;
  }

  // ---------- the hash ----------

  function LeafStart(nn: nat, kk: nat, i: nat): Chain
    requires nn <= OUTBYTES && kk <= KEYBYTES && i < DEGREE
  {
    Start(Param(nn, kk, 8, 2, i, 0, 32))
  }

  function RootStart(nn: nat, kk: nat): Chain
    requires nn <= OUTBYTES && kk <= KEYBYTES
  {
    Start(Param(nn, kk, 8, 2, 0, 1, 32))
  }

  function LeafDigest(F: Compression, nn: nat, key: seq<Byte>, m: seq<Byte>, i: nat): seq<Byte>
    requires nn <= OUTBYTES && |key| <= KEYBYTES && i < DEGREE
  {
    Digest(F, LeafStart(nn, |key|, i), Keyed(key, Stripes(m, i)), i == DEGREE - 1)
  }

  /** The digests of the first `n` leaves. */
  function LeafDigests(F: Compression, nn: nat, key: seq<Byte>, m: seq<Byte>, n: nat): seq<Byte>
    requires nn <= OUTBYTES && |key| <= KEYBYTES && n <= DEGREE
  {
    if n == 0 then [] else LeafDigests(F, nn, key, m, n - 1) + LeafDigest(F, nn, key, m, n - 1)
  }

  function Hash(F: Compression, nn: nat, key: seq<Byte>, m: seq<Byte>): seq<Byte>
    requires 1 <= nn <= OUTBYTES && |key| <= KEYBYTES
  {
    Digest(F, RootStart(nn, |key|), LeafDigests(F, nn, key, m, DEGREE), true)[..nn]
  }

  lemma {:induction false} LeafPlace(F: Compression, nn: nat, key: seq<Byte>, m: seq<Byte>, n: nat, i: nat)
    requires nn <= OUTBYTES && |key| <= KEYBYTES && i < n <= DEGREE
    ensures |LeafDigests(F, nn, key, m, n)| == 32 * n
    ensures LeafDigests(F, nn, key, m, n)[32 * i..32 * i + 32] == LeafDigest(F, nn, key, m, i)
    decreases n
  {
    hide LeafDigest;
    LeafSize(F, nn, key, m, n - 1);
    var front, last := LeafDigests(F, nn, key, m, n - 1), LeafDigest(F, nn, key, m, n - 1);
    DigestSize(F, nn, key, m, n - 1);
    if i < n - 1 {
      LeafPlace(F, nn, key, m, n - 1, i);
      assert (front + last)[32 * i..32 * i + 32] == front[32 * i..32 * i + 32];
    } else {
      assert (front + last)[32 * i..32 * i + 32] == last;
    }
  }

  lemma DigestSize(F: Compression, nn: nat, key: seq<Byte>, m: seq<Byte>, i: nat)
    requires nn <= OUTBYTES && |key| <= KEYBYTES && i < DEGREE
    ensures |LeafDigest(F, nn, key, m, i)| == 32
  {
  }

  lemma {:induction false} LeafSize(F: Compression, nn: nat, key: seq<Byte>, m: seq<Byte>, n: nat)
    requires nn <= OUTBYTES && |key| <= KEYBYTES && n <= DEGREE
    ensures |LeafDigests(F, nn, key, m, n)| == 32 * n
  {
    hide LeafDigest;
    if n > 0 {
      LeafSize(F, nn, key, m, n - 1);
      DigestSize(F, nn, key, m, n - 1);
    }
  }

  /**
    The tree: eight leaves of node depth 0, numbered by their node offset, the last one marked, each over its blocks of
    the message; and over their digests, in order, the root, of node depth 1 and marked.
   */
  lemma TreeLaw(F: Compression, nn: nat, key: seq<Byte>, m: seq<Byte>) returns (inner: seq<Byte>)
    requires 1 <= nn <= OUTBYTES && |key| <= KEYBYTES
    ensures |inner| == 256
    ensures Hash(F, nn, key, m) == Digest(F, Start(Param(nn, |key|, 8, 2, 0, 1, 32)), inner, true)[..nn]
    ensures forall i :: 0 <= i < 8 ==>
              inner[32 * i..32 * i + 32] == Digest(F, Start(Param(nn, |key|, 8, 2, i, 0, 32)), Keyed(key, Stripes(m, i)), i == 7)
  {
    hide Digest;
    hide Stripes;
    hide Start;
    inner := LeafDigests(F, nn, key, m, DEGREE);
    LeafSize(F, nn, key, m, DEGREE);
    forall i | 0 <= i < 8
      ensures inner[32 * i..32 * i + 32]
           == Digest(F, Start(Param(nn, |key|, 8, 2, i, 0, 32)), Keyed(key, Stripes(m, i)), i == 7)
    {
      LeafPlace(F, nn, key, m, DEGREE, i);
    }
  }

  // ---------- the eight leaves ----------

  /** Eight different states, with different buffers. */
  ghost predicate Apart(leaves: seq<B.State>) {
    && |leaves| == DEGREE
    && (forall i, j :: 0 <= i < j < DEGREE ==> leaves[i] != leaves[j] && leaves[i].buf != leaves[j].buf)
  }

  ghost function Bufs(leaves: seq<B.State>): set<object> {
    (set l: B.State | l in leaves :: l.buf as object) + (set l: B.State | l in leaves :: l as object)
  }

  /** Leaf `i` is set up as such, and was fed `s`. */
  ghost predicate LeafHas(leaves: seq<B.State>, F: Compression, nn: nat, kk: nat, i: nat, s: seq<Byte>)
    requires nn <= OUTBYTES && kk <= KEYBYTES && i < |leaves| == DEGREE
    reads leaves[i], leaves[i].buf
  {
    var l := leaves[i];
    l.Valid() && l.F == F && l.start == LeafStart(nn, kk, i) && l.outlen == OUTBYTES && l.lastNode == (i == DEGREE - 1)
    && l.fed == s
  }

  /** The leaves from `i` on have been fed so, and not been finished. */
  ghost predicate RestHave(leaves: seq<B.State>, F: Compression, nn: nat, kk: nat, fed: seq<seq<Byte>>, i: nat)
    requires nn <= OUTBYTES && kk <= KEYBYTES
    reads Bufs(leaves)
  {
    |leaves| == DEGREE == |fed| && forall j :: i <= j < DEGREE ==> leaves[j] in leaves && LeafHas(leaves, F, nn, kk, j, fed[j])
  }

  /** What each leaf was fed. */
  ghost predicate AllHave(leaves: seq<B.State>, F: Compression, nn: nat, kk: nat, fed: seq<seq<Byte>>)
    requires nn <= OUTBYTES && kk <= KEYBYTES
    reads Bufs(leaves)
  {
    RestHave(leaves, F, nn, kk, fed, 0)
  }

  /** Feeds one leaf; the others stay as they are. */
  method Feed(
      leaves: seq<B.State>, ghost F: Compression, ghost nn: nat, ghost kk: nat, ghost fed: seq<seq<Byte>>, ghost from: nat,
      i: nat, bytes: seq<Byte>)
    requires nn <= OUTBYTES && kk <= KEYBYTES && Apart(leaves) && RestHave(leaves, F, nn, kk, fed, from) && from <= i < DEGREE
    modifies Bufs(leaves)
    ensures RestHave(leaves, F, nn, kk, fed[i := fed[i] + bytes], from)
  {
    assert leaves[i] in leaves && LeafHas(leaves, F, nn, kk, i, fed[i]);
    leaves[i].Update(bytes);
    ghost var now := fed[i := fed[i] + bytes];
    forall j | from <= j < DEGREE ensures leaves[j] in leaves && LeafHas(leaves, F, nn, kk, j, now[j]) {
      assert old(LeafHas(leaves, F, nn, kk, j, fed[j]));
    }
  }

  /** Feeds each leaf its part of one stripe, or of less than a stripe. */
  method FeedParts(
      leaves: seq<B.State>, ghost F: Compression, ghost nn: nat, ghost kk: nat, ghost fed: seq<seq<Byte>>, stripe: seq<Byte>)
    requires nn <= OUTBYTES && kk <= KEYBYTES && Apart(leaves) && AllHave(leaves, F, nn, kk, fed)
    requires |stripe| == STRIPE
    modifies Bufs(leaves)
    ensures AllHave(leaves, F, nn, kk, seq(DEGREE, i requires 0 <= i < DEGREE => fed[i] + Stripes(stripe, i)))
  {
    hide RestHave;
    hide Stripes;
    HaveLength(leaves, F, nn, kk, fed, 0);
    ghost var now := fed;
    var i := 0;
    while i < DEGREE
      invariant 0 <= i <= DEGREE && AllHave(leaves, F, nn, kk, now) && |now| == DEGREE
      invariant forall j :: 0 <= j < DEGREE ==> now[j] == if j < i then fed[j] + Stripes(stripe, j) else fed[j]
    {
      StripeOfOne(stripe, i);
      Feed(leaves, F, nn, kk, now, 0, i, stripe[i * BLOCKBYTES..i * BLOCKBYTES + BLOCKBYTES]);
      now := now[i := now[i] + stripe[i * BLOCKBYTES..i * BLOCKBYTES + BLOCKBYTES]];
      i := i + 1;
    }
    assert now == seq(DEGREE, i requires 0 <= i < DEGREE => fed[i] + Stripes(stripe, i));
  }

  /** Feeds one leaf its blocks of all whole stripes. */
  method FeedLeaf(
      leaves: seq<B.State>, ghost F: Compression, ghost nn: nat, ghost kk: nat, ghost fed: seq<seq<Byte>>, ghost from: nat,
      i: nat, data: seq<Byte>)
    requires nn <= OUTBYTES && kk <= KEYBYTES && Apart(leaves) && RestHave(leaves, F, nn, kk, fed, from) && from <= i < DEGREE
    modifies Bufs(leaves)
    ensures RestHave(leaves, F, nn, kk, fed[i := fed[i] + Stripes(data[..Whole(data)], i)], from)
  {
    hide RestHave;
    var p, n := BLOCKBYTES * i, |data|;
    ghost var k, now := 0, fed;
    HaveLength(leaves, F, nn, kk, fed, from);
    assert fed[i] + Stripes(data[..0], i) == fed[i];
    while n >= STRIPE
      invariant STRIPE * k <= |data| && n == |data| - STRIPE * k && p == BLOCKBYTES * i + STRIPE * k
      invariant now == fed[i := fed[i] + Stripes(data[..STRIPE * k], i)] && RestHave(leaves, F, nn, kk, now, from)
    {
      Feed(leaves, F, nn, kk, now, from, i, data[p..p + BLOCKBYTES]);
      OneStripe(data, k, i);
      assert fed[i] + Stripes(data[..STRIPE * k], i) + data[p..p + BLOCKBYTES] ==
             fed[i] + Stripes(data[..STRIPE * (k + 1)], i);
      now := now[i := now[i] + data[p..p + BLOCKBYTES]];
      p, n, k := p + STRIPE, n - STRIPE, k + 1;
    }
    WholeIs(data, k);
  }

  /** The bytes of all whole stripes. */
  function Whole(data: seq<Byte>): (n: nat)
    ensures n <= |data| < n + STRIPE
  {
    |data| - |data| % STRIPE
  }

  lemma WholeIs(data: seq<Byte>, k: nat)
    requires STRIPE * k <= |data| < STRIPE * (k + 1)
    ensures Whole(data) == STRIPE * k
  {
  }

  lemma HaveLength(leaves: seq<B.State>, F: Compression, nn: nat, kk: nat, fed: seq<seq<Byte>>, from: nat)
    requires nn <= OUTBYTES && kk <= KEYBYTES && RestHave(leaves, F, nn, kk, fed, from)
    ensures |leaves| == DEGREE == |fed|
  {
  }

  lemma OneStripe(data: seq<Byte>, k: nat, i: nat)
    requires STRIPE * (k + 1) <= |data| && i < DEGREE
    ensures var p := BLOCKBYTES * i + STRIPE * k;
            Stripes(data[..STRIPE * (k + 1)], i) == Stripes(data[..STRIPE * k], i) + data[p..p + BLOCKBYTES]
  {
    hide Stripes;
    StripeAt(data, STRIPE * k, k, BLOCKBYTES * i, i);
  }

  lemma StripeAt(data: seq<Byte>, at: nat, k: nat, from: nat, i: nat)
    requires at == STRIPE * k && from == BLOCKBYTES * i && at + 512 <= |data| && i < DEGREE
    ensures from + 64 <= 512
    ensures Stripes(data[..at + 512], i) == Stripes(data[..at], i) + data[from + at..from + at + 64]
  {
    hide Stripes;
    var stripe := data[at..at + 512];
    SliceGrows(data, at, at + 512);
    StripesAppend(data[..at], k, stripe, i);
    StripeOfOne(stripe, i);
    SliceOfSlice(data, at, at + 512, from, from + 64);
  }

  lemma StripeOfOne(stripe: seq<Byte>, i: nat)
    requires |stripe| == STRIPE && i < DEGREE
    ensures Stripes(stripe, i) == stripe[i * BLOCKBYTES..i * BLOCKBYTES + BLOCKBYTES]
  {
    assert stripe[..STRIPE] == stripe;
    assert Stripes(stripe[STRIPE..], i) == [];
  }

  /** Feeds all leaves the whole stripes of some data. */
  method FeedStripes(
      leaves: seq<B.State>, ghost F: Compression, ghost nn: nat, ghost kk: nat, ghost fed: seq<seq<Byte>>, data: seq<Byte>)
    requires nn <= OUTBYTES && kk <= KEYBYTES && Apart(leaves) && AllHave(leaves, F, nn, kk, fed) && |fed| == DEGREE
    modifies Bufs(leaves)
    ensures AllHave(leaves, F, nn, kk, seq(DEGREE, i requires 0 <= i < DEGREE => fed[i] + Stripes(data[..Whole(data)], i)))
  {
    hide RestHave;
    hide Stripes;
    ghost var now := fed;
    var i := 0;
    while i < DEGREE
      invariant 0 <= i <= DEGREE && AllHave(leaves, F, nn, kk, now) && |now| == DEGREE
      invariant forall j :: 0 <= j < DEGREE ==> now[j] == if j < i then fed[j] + Stripes(data[..Whole(data)], j) else fed[j]
    {
      FeedLeaf(leaves, F, nn, kk, now, 0, i, data);
      now := now[i := now[i] + Stripes(data[..Whole(data)], i)];
      i := i + 1;
    }
    assert now == seq(DEGREE, i requires 0 <= i < DEGREE => fed[i] + Stripes(data[..Whole(data)], i));
  }

  /** blake2sp_init_leaf, and the mark of the last leaf. */
  method MakeLeaf(F: Compression, nn: nat, kk: nat, i: nat) returns (s: B.State)
    requires nn <= OUTBYTES && kk <= KEYBYTES && i < DEGREE
    ensures fresh(s) && fresh(s.buf) && LeafSetUp(s, F, nn, kk, i)
  {
    s := new B.State(F, Param(nn, kk, 8, 2, i, 0, 32));
    s.outlen := 32;
    if i == DEGREE - 1 {
      s.lastNode := true;
    }
  }

  /** Eight fresh leaves. */
  method MakeLeaves(F: Compression, nn: nat, kk: nat) returns (leaves: seq<B.State>)
    requires nn <= OUTBYTES && kk <= KEYBYTES
    ensures Apart(leaves) && fresh(Bufs(leaves)) && AllHave(leaves, F, nn, kk, seq(DEGREE, _ => []))
  {
    hide LeafSetUp;
    leaves := [];
    var i := 0;
    while i < DEGREE
      invariant i == |leaves| <= DEGREE && forall j :: 0 <= j < i ==> fresh(leaves[j]) && fresh(leaves[j].buf)
      invariant forall j, k :: 0 <= j < k < i ==> leaves[j] != leaves[k] && leaves[j].buf != leaves[k].buf
      invariant forall j :: 0 <= j < i ==> LeafSetUp(leaves[j], F, nn, kk, j)
    {
      var s := MakeLeaf(F, nn, kk, i);
      leaves := leaves + [s];
      i := i + 1;
    }
    AllSetUp(leaves, F, nn, kk);
  }

  lemma AllSetUp(leaves: seq<B.State>, F: Compression, nn: nat, kk: nat)
    requires nn <= OUTBYTES && kk <= KEYBYTES && |leaves| == DEGREE
    requires forall j :: 0 <= j < DEGREE ==> LeafSetUp(leaves[j], F, nn, kk, j)
    ensures AllHave(leaves, F, nn, kk, seq(DEGREE, _ => []))
  {
    ghost var none := seq(DEGREE, _ => []);
    forall j | 0 <= j < DEGREE ensures leaves[j] in leaves && LeafHas(leaves, F, nn, kk, j, none[j]) {
      assert LeafSetUp(leaves[j], F, nn, kk, j);
    }
  }

  ghost predicate LeafSetUp(l: B.State, F: Compression, nn: nat, kk: nat, i: nat)
    requires nn <= OUTBYTES && kk <= KEYBYTES && i < DEGREE
    reads l, l.buf
  {
    l.Valid() && l.F == F && l.start == LeafStart(nn, kk, i) && l.outlen == OUTBYTES && l.lastNode == (i == DEGREE - 1)
    && l.fed == []
  }

  /** Feeds every leaf the key, padded to a block. */
  method FeedKey(leaves: seq<B.State>, ghost F: Compression, ghost nn: nat, key: seq<Byte>)
    requires nn <= OUTBYTES && 0 < |key| <= KEYBYTES && Apart(leaves)
    requires AllHave(leaves, F, nn, |key|, seq(DEGREE, _ => []))
    modifies Bufs(leaves)
    ensures AllHave(leaves, F, nn, |key|, seq(DEGREE, _ => Padded(key)))
  {
    hide RestHave;
    ghost var now: seq<seq<Byte>> := seq(DEGREE, _ => []);
    var i := 0;
    while i < DEGREE
      invariant 0 <= i <= DEGREE && AllHave(leaves, F, nn, |key|, now) && |now| == DEGREE
      invariant forall j :: 0 <= j < DEGREE ==> now[j] == if j < i then Padded(key) else []
    {
      Feed(leaves, F, nn, |key|, now, 0, i, Padded(key));
      assert now[i] + Padded(key) == Padded(key);
      now := now[i := Padded(key)];
      i := i + 1;
    }
    assert now == seq(DEGREE, _ => Padded(key));
  }

  ghost predicate RootReady(r: B.State, F: Compression, nn: nat, kk: nat)
    requires nn <= OUTBYTES && kk <= KEYBYTES
    reads r, r.buf
  {
    r.Valid() && r.F == F && r.start == RootStart(nn, kk) && r.outlen == nn && r.lastNode && r.fed == []
  }

  /** blake2sp_init_root, and the mark of the root. */
  method MakeRoot(F: Compression, nn: nat, kk: nat) returns (r: B.State)
    requires nn <= OUTBYTES && kk <= KEYBYTES
    ensures fresh(r) && fresh(r.buf) && RootReady(r, F, nn, kk)
  {
    r := new B.State(F, Param(nn, kk, 8, 2, 0, 1, 32));
    r.lastNode := true;
  }

  /** blake2sp_init without a key, blake2sp_init_key with one. */
  method Init(F: Compression, nn: nat, key: seq<Byte>) returns (s: State?)
    ensures s == null <==> nn == 0 || nn > OUTBYTES || |key| > KEYBYTES
    ensures s != null ==>
              && s.Valid() && s.F == F && s.outlen == nn && s.key == key && s.message == []
              && fresh(s) && fresh(s.buf) && fresh(s.root) && fresh(s.root.buf) && fresh(Bufs(s.leaves))
  {
    hide RestHave;
    if nn == 0 || nn > OUTBYTES || |key| > KEYBYTES {
      return null;
    }
    var root := MakeRoot(F, nn, |key|);
    var leaves := MakeLeaves(F, nn, |key|);
    if |key| > 0 {
      FeedKey(leaves, F, nn, key);
    }
    NoStripes(key);
    s := new State(F, nn, key, leaves, root);
  }

  lemma NoStripes(key: seq<Byte>)
    requires |key| <= KEYBYTES
    ensures LeafData(key, []) == if key == [] then seq(DEGREE, _ => []) else seq(DEGREE, _ => Padded(key))
  {
    forall i: nat | i < DEGREE ensures LeafData(key, [])[i] == if key == [] then [] else Padded(key) {
      assert Padded(key) + [] == Padded(key) || key == [];
    }
  }

  // ---------- the streaming state ----------

  class State {
    const F: Compression
    const leaves: seq<B.State>
    const root: B.State
    const buf: array<Byte>
    var buflen: nat
    const outlen: nat
    /** The key, all data passed to Update so far, and the number of stripes passed on to the leaves. */
    ghost const key: seq<Byte>
    ghost var message: seq<Byte>
    ghost var stripes: nat

    constructor (F: Compression, nn: nat, ghost key: seq<Byte>, leaves: seq<B.State>, root: B.State)
      requires 1 <= nn <= OUTBYTES && |key| <= KEYBYTES && Apart(leaves)
      requires AllHave(leaves, F, nn, |key|, LeafData(key, [])) && RootReady(root, F, nn, |key|)
      requires root !in leaves && forall l :: l in leaves ==> l.buf != root.buf
      ensures Valid() && this.F == F && outlen == nn && this.key == key && message == []
      ensures fresh(buf) && this.root == root && this.leaves == leaves
    {
      this.F := F;
      this.leaves := leaves;
      this.root := root;
      buf := new Byte[STRIPE](_ => 0);
      buflen := 0;
      outlen := nn;
      this.key := key;
      message := [];
      stripes := 0;
      new;
      hide RestHave;
      hide Apart;
      hide RootReady;
      StartPassed();
    }

    lemma StartPassed()
      requires 1 <= outlen <= OUTBYTES && |key| <= KEYBYTES && message == [] && stripes == 0
      requires AllHave(leaves, F, outlen, |key|, LeafData(key, []))
      ensures Passed(message, stripes)
    {
      assert message[..0] == [];
    }

    ghost predicate Setup() {
      && 1 <= outlen <= OUTBYTES && |key| <= KEYBYTES && Apart(leaves) && buf.Length == STRIPE && buf !in Bufs(leaves)
      && root !in leaves && (forall l :: l in leaves ==> l.buf != buf && l.buf != root.buf) && root.buf != buf
    }

    /** Each leaf has its blocks of the whole stripes; the rest is in the buffer, which is never full. */
    ghost predicate Valid()
      reads this, buf, Bufs(leaves), root, root.buf
    {
      && Setup() && buflen < STRIPE && |message| == STRIPE * stripes + buflen
      && buf[..buflen] == message[STRIPE * stripes..]
      && Passed(message, stripes)
      && RootReady(root, F, outlen, |key|)
    }

    /** The first `k` stripes of some data have gone to the leaves. */
    ghost predicate Passed(data: seq<Byte>, k: nat)
      reads Bufs(leaves)
    {
      && outlen <= OUTBYTES && |key| <= KEYBYTES && STRIPE * k <= |data|
      && AllHave(leaves, F, outlen, |key|, LeafData(key, data[..STRIPE * k]))
    }

    lemma PassedMore(input: seq<Byte>)
      requires Passed(message, stripes)
      ensures Passed(message + input, stripes) && STRIPE * stripes <= |message|
    {
      assert (message + input)[..STRIPE * stripes] == message[..STRIPE * stripes];
    }

    /** The buffer is filled up and its stripe passed on. */
    method PassBuffer(bytes: seq<Byte>, ghost data: seq<Byte>, ghost k: nat)
      requires Setup() && Passed(data, k) && buflen + |bytes| == STRIPE && STRIPE * (k + 1) <= |data|
      requires buflen <= buf.Length && data[STRIPE * k..STRIPE * (k + 1)] == buf[..buflen] + bytes
      modifies buf, Bufs(leaves)
      ensures Passed(data, k + 1)
    {
      hide RestHave;
      CopyIn(buflen, bytes);
      assert buf[..] == data[STRIPE * k..STRIPE * (k + 1)];
      FeedParts(leaves, F, outlen, |key|, LeafData(key, data[..STRIPE * k]), buf[..]);
      MoreStripes(key, data[..STRIPE * k], k, buf[..]);
      assert data[..STRIPE * k] + buf[..] == data[..STRIPE * (k + 1)];
    }

    /** All whole stripes of the data at hand are passed on. */
    method PassStripes(rest: seq<Byte>, ghost data: seq<Byte>, ghost k: nat) returns (ghost k': nat)
      requires Setup() && Passed(data, k) && (|rest| < STRIPE || rest == data[STRIPE * k..])
      modifies Bufs(leaves)
      ensures STRIPE * k' == STRIPE * k + Whole(rest) && Passed(data, k')
    {
      hide RestHave;
      FeedStripes(leaves, F, outlen, |key|, LeafData(key, data[..STRIPE * k]), rest);
      MoreStripes(key, data[..STRIPE * k], k, rest[..Whole(rest)]);
      k' := k + |rest| / STRIPE;
      assert |rest| < STRIPE ==> data[..STRIPE * k] + rest[..Whole(rest)] == data[..STRIPE * k];
      assert data[..STRIPE * k] + rest[..Whole(rest)] == data[..STRIPE * k'];
    }

    /** When there is enough to fill the buffer, its stripe is passed on; `left` bytes of it still count. */
    method PassFilled(input: seq<Byte>, ghost all: seq<Byte>) returns (pos: nat, left: nat)
      requires Valid() && all == message + input && Passed(all, stripes)
      modifies `stripes, buf, Bufs(leaves)
      ensures Passed(all, stripes) && pos <= |input| && left < STRIPE && STRIPE * stripes <= |all|
      ensures all[STRIPE * stripes..] == buf[..left] + input[pos..] && (left == 0 || left + |input| - pos < STRIPE)
    {
      hide RestHave;
      hide Apart;
      hide Passed;
      hide RootReady;
      left := buflen;
      var fill := STRIPE - left;
      pos := 0;
      if left != 0 && |input| >= fill {
        SliceAcross(message, input, STRIPE * stripes, STRIPE);
        PassBuffer(input[..fill], all, stripes);
        stripes := stripes + 1;
        pos := fill;
        left := 0;
        assert input[pos..] == all[STRIPE * stripes..];
      }
    }

    /** Behind the whole stripes passed on is what is left of the input. */
    lemma RestBehind(all: seq<Byte>, at: nat, lead: seq<Byte>, rest: seq<Byte>)
      requires at <= |all| && all[at..] == lead + rest && (lead == [] || |rest| < STRIPE)
      ensures at + Whole(rest) <= |all| && all[at + Whole(rest)..] == lead + rest[Whole(rest)..]
    {
      var w := Whole(rest);
      assert lead != [] ==> w == 0;
      assert all[at + w..] == all[at..][w..];
    }

    /** The whole stripes of what follows are passed on. */
    method PassWhole(input: seq<Byte>, ghost all: seq<Byte>, pos: nat, left: nat) returns (pos': nat)
      requires Setup() && Passed(all, stripes) && pos <= |input| && left < STRIPE && STRIPE * stripes <= |all|
      requires all[STRIPE * stripes..] == buf[..left] + input[pos..]
      requires left == 0 || left + |input| - pos < STRIPE
      modifies `stripes, Bufs(leaves)
      ensures Passed(all, stripes) && pos' <= |input| && left + |input| - pos' < STRIPE && STRIPE * stripes <= |all|
      ensures all[STRIPE * stripes..] == buf[..left] + input[pos'..]
    {
      hide RestHave;
      hide Apart;
      hide Passed;
      var rest := input[pos..];
      ghost var at := STRIPE * stripes;
      RestBehind(all, at, buf[..left], rest);
      assert left == 0 ==> all[at..] == rest;
      stripes := PassStripes(rest, all, stripes);
      pos' := pos + Whole(rest);
      assert input[pos'..] == rest[Whole(rest)..];
    }

    /** What is left waits in the buffer. */
    method Keep(left: nat, rest: seq<Byte>)
      requires left + |rest| <= buf.Length
      modifies `buflen, buf
      ensures buflen == left + |rest| <= buf.Length && buf[..buflen] == old(buf[..left]) + rest
    {
      CopyIn(left, rest);
      buflen := left + |rest|;
      assert buf[..buflen] == buf[..][..buflen];
    }

    /** Passes on data: whole stripes go to the leaves, the rest waits. */
    method Update(input: seq<Byte>)
      requires Valid()
      modifies this, buf, Bufs(leaves)
      ensures Valid() && message == old(message) + input
    {
      hide RestHave;
      hide Apart;
      hide Passed;
      hide RootReady;
      ghost var all := message + input;
      PassedMore(input);
      var pos, left := PassFilled(input, all);
      pos := PassWhole(input, all, pos, left);
      Keep(left, input[pos..]);
      message := all;
    }

    /** The part of the buffer that goes to leaf `i`. */
    method BufferPart(i: nat) returns (bytes: seq<Byte>)
      requires buflen <= buf.Length
      ensures bytes == Part(buf[..buflen], i)
    {
      bytes := [];
      if buflen > i * BLOCKBYTES {
        var left := buflen - i * BLOCKBYTES;
        if left > BLOCKBYTES {
          left := BLOCKBYTES;
        }
        bytes := buf[i * BLOCKBYTES..i * BLOCKBYTES + left];
      }
    }

    /** Each leaf gets its part of the last stripe; the digests are joined. */
    method FinishLeaves() returns (hashes: seq<Byte>)
      requires Valid()
      modifies Bufs(leaves)
      ensures hashes == LeafDigests(F, outlen, key, message, DEGREE)
    {
      hide Apart;
      hide LeafDigests;
      hide LeafDigest;
      hide RestHave;
      hide Part;
      hide LeafData;
      hashes := [];
      var i := 0;
      ghost var fed, rest := LeafData(key, message[..STRIPE * stripes]), message[STRIPE * stripes..];
      AllRest(leaves, F, outlen, |key|, fed);
      NoDigests(F, outlen, key, message);
      while i < DEGREE
        invariant 0 <= i <= DEGREE && hashes == LeafDigests(F, outlen, key, message, i)
        invariant RestHave(leaves, F, outlen, |key|, fed, i) && |fed| == DEGREE && buf[..buflen] == rest
      {
        var bytes := BufferPart(i);
        var hash := FinishLeaf(leaves, F, outlen, |key|, fed, i, bytes);
        NextDigest(F, outlen, key, message, stripes, i);
        hashes := hashes + hash;
        i := i + 1;
      }
    }

    /** The digest of all data passed in: the root gets the leaves' digests. */
    method Final(outlen': nat) returns (out: Option<seq<Byte>>)
      requires Valid()
      modifies Bufs(leaves), root, root.buf
      ensures out.None? <==> outlen' < outlen
      ensures out.Some? ==> out.value == Hash(F, outlen, key, message)
    {
      hide RestHave;
      hide Apart;
      hide LeafDigests;
      if outlen' < outlen {
        return None;
      }
      var hashes := FinishLeaves();
      assert RootReady(root, F, outlen, |key|);
      root.Update(hashes);
      assert [] + hashes == hashes;
      var beyond;
      out, beyond := root.Final(outlen);
      assert beyond == 0;
    }

    method CopyIn(at: nat, bytes: seq<Byte>)
      requires at + |bytes| <= buf.Length
      modifies buf
      ensures buf[..] == old(buf[..at]) + bytes + old(buf[at + |bytes|..])
    {
      forall i | 0 <= i < |bytes| {
        buf[at + i] := bytes[i];
      }
    }
  }

  ghost function LeafData(key: seq<Byte>, m: seq<Byte>): seq<seq<Byte>>
    requires |key| <= KEYBYTES
  {
    seq(DEGREE, i requires 0 <= i < DEGREE => Keyed(key, Stripes(m, i)))
  }

  /** The last bytes, if any, go to leaf `i`, whose digest is taken. */
  method FinishLeaf(
      leaves: seq<B.State>, ghost F: Compression, ghost nn: nat, ghost kk: nat, ghost fed: seq<seq<Byte>>, i: nat, bytes: seq<Byte>)
    returns (hash: seq<Byte>)
    requires nn <= OUTBYTES && kk <= KEYBYTES && i < DEGREE && Apart(leaves) && RestHave(leaves, F, nn, kk, fed, i)
    modifies Bufs(leaves)
    ensures RestHave(leaves, F, nn, kk, fed, i + 1)
    ensures hash == Digest(F, LeafStart(nn, kk, i), fed[i] + bytes, i == DEGREE - 1)
  {
    assert leaves[i] in leaves && LeafHas(leaves, F, nn, kk, i, fed[i]);
    if |bytes| > 0 {
      leaves[i].Update(bytes);
    }
    assert fed[i] + bytes == leaves[i].fed;
    var out, beyond := leaves[i].Final(OUTBYTES);
    assert beyond == 0;
    hash := out.value;
    forall j | i + 1 <= j < DEGREE ensures leaves[j] in leaves && LeafHas(leaves, F, nn, kk, j, fed[j]) {
      assert old(LeafHas(leaves, F, nn, kk, j, fed[j]));
    }
  }

  lemma AllRest(leaves: seq<B.State>, F: Compression, nn: nat, kk: nat, fed: seq<seq<Byte>>)
    requires nn <= OUTBYTES && kk <= KEYBYTES && AllHave(leaves, F, nn, kk, fed)
    ensures RestHave(leaves, F, nn, kk, fed, 0) && |fed| == DEGREE
  {
  }

  lemma NoDigests(F: Compression, nn: nat, key: seq<Byte>, m: seq<Byte>)
    requires nn <= OUTBYTES && |key| <= KEYBYTES
    ensures LeafDigests(F, nn, key, m, 0) == []
  {
  }

  /** The digest of one more leaf, fed the whole stripes before and the rest last. */
  lemma NextDigest(F: Compression, nn: nat, key: seq<Byte>, m: seq<Byte>, k: nat, i: nat)
    requires nn <= OUTBYTES && |key| <= KEYBYTES && STRIPE * k <= |m| < STRIPE * (k + 1) && i < DEGREE
    ensures var last := LeafData(key, m[..STRIPE * k])[i] + Part(m[STRIPE * k..], i);
            LeafDigests(F, nn, key, m, i + 1) ==
            LeafDigests(F, nn, key, m, i) + Digest(F, LeafStart(nn, |key|, i), last, i == DEGREE - 1)
  {
    WholeLeaf(key, m, k, i);
  }

  lemma WholeLeaf(key: seq<Byte>, m: seq<Byte>, k: nat, i: nat)
    requires |key| <= KEYBYTES && STRIPE * k <= |m| < STRIPE * (k + 1) && i < DEGREE
    ensures LeafData(key, m[..STRIPE * k])[i] + Part(m[STRIPE * k..], i) == Keyed(key, Stripes(m, i))
  {
    assert m == m[..STRIPE * k] + m[STRIPE * k..];
    StripesAppend(m[..STRIPE * k], k, m[STRIPE * k..], i);
  }

  /** Feeding whole stripes and then more is feeding both at once. */
  lemma MoreStripes(key: seq<Byte>, m: seq<Byte>, k: nat, more: seq<Byte>)
    requires |key| <= KEYBYTES && |m| == STRIPE * k
    ensures seq(DEGREE, i requires 0 <= i < DEGREE => LeafData(key, m)[i] + Stripes(more, i)) == LeafData(key, m + more)
  {
    forall i: nat | i < DEGREE ensures LeafData(key, m)[i] + Stripes(more, i) == LeafData(key, m + more)[i] {
      StripesAppend(m, k, more, i);
    }
  }

  // ---------- one call, and any number of calls ----------

  /** blake2sp: everything at once, without a buffer. */
  method OneShot(F: Compression, nn: nat, input: seq<Byte>, key: seq<Byte>) returns (out: Option<seq<Byte>>)
    ensures out.None? <==> nn == 0 || nn > OUTBYTES || |key| > KEYBYTES
    ensures out.Some? ==> out.value == Hash(F, nn, key, input)
  {
    hide RestHave;
    hide Apart;
    if nn == 0 || nn > OUTBYTES || |key| > KEYBYTES {
      return None;
    }
    var leaves := MakeLeaves(F, nn, |key|);
    if |key| > 0 {
      FeedKey(leaves, F, nn, key);
    }
    NoStripes(key);
    var hashes := HashLeaves(leaves, F, nn, input, key);
    var root := MakeRoot(F, nn, |key|);
    root.Update(hashes);
    assert [] + hashes == hashes;
    var beyond;
    out, beyond := root.Final(nn);
    assert beyond == 0;
  }

  /** Each leaf is fed all its blocks and finished, before the next one is begun. */
  method HashLeaves(leaves: seq<B.State>, ghost F: Compression, ghost nn: nat, input: seq<Byte>, ghost key: seq<Byte>)
    returns (hashes: seq<Byte>)
    requires nn <= OUTBYTES && |key| <= KEYBYTES && Apart(leaves)
    requires AllHave(leaves, F, nn, |key|, LeafData(key, []))
    modifies Bufs(leaves)
    ensures hashes == LeafDigests(F, nn, key, input, DEGREE)
  {
    hide RestHave;
    hide Apart;
    hide LeafDigests;
    hide Part;
    hashes := [];
    NoDigests(F, nn, key, input);
    ghost var fed := LeafData(key, []);
    var i := 0;
    while i < DEGREE
      invariant 0 <= i <= DEGREE && hashes == LeafDigests(F, nn, key, input, i)
      invariant RestHave(leaves, F, nn, |key|, fed, i) && |fed| == DEGREE
      invariant forall j :: i <= j < DEGREE ==> fed[j] == LeafData(key, [])[j]
    {
      FeedLeaf(leaves, F, nn, |key|, fed, i, i, input);
      fed := fed[i := fed[i] + Stripes(input[..Whole(input)], i)];
      var bytes := PartOf(input[Whole(input)..], i);
      var hash := FinishLeaf(leaves, F, nn, |key|, fed, i, bytes);
      OneShotLeaf(key, input, i);
      NextDigest(F, nn, key, input, |input| / STRIPE, i);
      hashes := hashes + hash;
      i := i + 1;
    }
  }

  method PartOf(rest: seq<Byte>, i: nat) returns (bytes: seq<Byte>)
    ensures bytes == Part(rest, i)
  {
    bytes := [];
    if |rest| > i * BLOCKBYTES {
      var left := |rest| - i * BLOCKBYTES;
      var len := if left <= BLOCKBYTES then left else BLOCKBYTES;
      bytes := rest[i * BLOCKBYTES..i * BLOCKBYTES + len];
    }
  }

  lemma OneShotLeaf(key: seq<Byte>, m: seq<Byte>, i: nat)
    requires |key| <= KEYBYTES && i < DEGREE
    ensures STRIPE * (|m| / STRIPE) == Whole(m)
    ensures LeafData(key, [])[i] + Stripes(m[..Whole(m)], i) == LeafData(key, m[..Whole(m)])[i]
  {
    assert Keyed(key, []) + Stripes(m[..Whole(m)], i) == Keyed(key, Stripes(m[..Whole(m)], i));
  }

  /** For every way to split a message into updates, the digest is the one of a single call. */
  method HashChunks(F: Compression, nn: nat, chunks: seq<seq<Byte>>, key: seq<Byte>) returns (out: Option<seq<Byte>>)
    ensures out.None? <==> nn == 0 || nn > OUTBYTES || |key| > KEYBYTES
    ensures out.Some? ==> out.value == Hash(F, nn, key, Concat(chunks))
  {
    hide RestHave;
    hide Apart;
    var s := Init(F, nn, key);
    if s == null {
      return None;
    }
    var i := 0;
    while i < |chunks|
      invariant 0 <= i <= |chunks| && s.Valid() && s.message == Concat(chunks[..i])
      invariant fresh(s) && fresh(s.buf) && fresh(s.root) && fresh(s.root.buf) && fresh(Bufs(s.leaves))
    {
      s.Update(chunks[i]);
      assert chunks[..i + 1][..i] == chunks[..i];
      i := i + 1;
    }
    assert chunks[..i] == chunks;
    out := s.Final(nn);
  }
}
