/** What BLAKE2s computes, by section 3.3 of RFC 7693, over an opaque compression function. */
module Blake2sSpec {
  import opened Bits
  import opened Words

  /** A chain value: eight words. */
  type Chain = h: seq<Word> | |h| == 8 witness seq(8, _ => 0)

  /** The compression function: chain value, block, the two words of the counter, the two flag words. */
  type Compression = (Chain, seq<Byte>, Word, Word, Word, Word) -> Chain

  const BLOCKBYTES: nat := 64
  const OUTBYTES: nat := 32
  const KEYBYTES: nat := 32

  /** The parts of the parameter block that the callers set; the others are 0. */
  datatype Param = Param(
    digestLength: Byte, keyLength: Byte, fanout: Byte, depth: Byte, nodeOffset: Word, nodeDepth: Byte, innerLength: Byte)

  const IV: seq<Word> := [
    0x6A09_E667, 0xBB67_AE85, 0x3C6E_F372, 0xA54F_F53A, 0x510E_527F, 0x9B05_688C, 0x1F83_D9AB, 0x5BE0_CD19]

  /** Word `i` of the parameter block, little endian. */
  function ParamWord(p: Param, i: nat): Word {
    if i == 0 then p.digestLength + 0x100 * (p.keyLength as int) + 0x1_0000 * (p.fanout as int) + 0x100_0000 * (p.depth as int)
    else if i == 2 then p.nodeOffset
    else if i == 3 then 0x1_0000 * (p.nodeDepth as int) + 0x100_0000 * (p.innerLength as int)
    else 0
  }

  function XorWord(a: Word, b: Word): Word {
    assert PowerOfTwo(0x1_0000_0000) by {
      Power32();
    }
    XorBound(a, b, 0x1_0000_0000);
    Xor(a, b)
  }

  lemma Power32()
    ensures PowerOfTwo(0x1_0000_0000)
  {
    Power16(1);
    Power16(0x10);
    Power16(0x100);
    Power16(0x1000);
    Power16(0x1_0000);
    Power16(0x10_0000);
    Power16(0x100_0000);
    Power16(0x1000_0000);
  }

  lemma Power16(n: nat)
    requires PowerOfTwo(n)
    ensures PowerOfTwo(16 * n)
  {
    assert 2 * n / 2 == n && 4 * n / 2 == 2 * n && 8 * n / 2 == 4 * n && 16 * n / 2 == 8 * n;
    assert PowerOfTwo(2 * n) && PowerOfTwo(4 * n) && PowerOfTwo(8 * n);
  }

  /** The initial chain value of a parameter block. */
  function Start(p: Param): Chain {
    seq(8, i requires 0 <= i < 8 => XorWord(IV[i], ParamWord(p, i)))
  }

  lemma XorNothing(a: nat)
    ensures Xor(a, 0) == a
  {
    if a > 0 {
      XorNothing(a / 2);
    }
  }

  /** Exclusive or goes digit by digit, also in base `n`. */
  lemma {:induction false} XorDigits(a: nat, b: nat, x: nat, y: nat, n: nat)
    requires PowerOfTwo(n) && x < n && y < n
    ensures Xor(n * a + x, n * b + y) == n * Xor(a, b) + Xor(x, y)
    decreases n
  {
    if n == 1 {
    } else {
      var m := n / 2;
      assert n == 2 * m;
      Halved(a, x, m);
      Halved(b, y, m);
      XorDigits(a, b, x / 2, y / 2, m);
      TwiceTimes(m, Xor(a, b));
    }
  }

  lemma Halved(a: nat, x: nat, m: nat)
    ensures (2 * m * a + x) / 2 == m * a + x / 2 && (2 * m * a + x) % 2 == x % 2
  {
    assert 2 * m * a == 2 * (m * a);
  }

  lemma TwiceTimes(m: nat, v: nat)
    ensures 2 * (m * v) == 2 * m * v
  {
  }

  lemma Power256()
    ensures PowerOfTwo(0x100)
  {
    Power16(1);
    Power16(0x10);
  }

  lemma XorBytes(a: nat, b: nat, c: nat, x: nat, y: nat, z: nat)
    requires b < 0x100 && c < 0x100 && y < 0x100 && z < 0x100
    ensures Xor(0x1_0000 * a + 0x100 * b + c, 0x1_0000 * x + 0x100 * y + z) ==
            0x1_0000 * Xor(a, x) + 0x100 * Xor(b, y) + Xor(c, z)
  {
    hide Xor;
    Power256();
    XorDigits(0x100 * a + b, 0x100 * x + y, c, z, 0x100);
    XorDigits(a, x, b, y, 0x100);
  }

  /** The lengths fill bytes of the first parameter word of their own, so adding them in is exclusive or. */
  lemma FirstWord(w: nat, nn: Byte, kk: Byte)
    ensures Xor(w, 0x0101_0000 + 0x100 * (kk as int) + nn) == Xor(Xor(Xor(w, 0x0101_0000), 0x100 * (kk as int)), nn)
  {
    hide Xor;
    hide PowerOfTwo;
    var top, mid, low := w / 0x1_0000, w / 0x100 % 0x100, w % 0x100;
    XorBytes(top, mid, low, 0x101, kk, nn);
    XorBytes(top, mid, low, 0x101, 0, 0);
    XorNothing(mid);
    XorNothing(low);
    InByte(mid, kk);
    XorBytes(Xor(top, 0x101), mid, low, 0, kk, 0);
    XorNothing(Xor(top, 0x101));
    XorBytes(Xor(top, 0x101), Xor(mid, kk), low, 0, 0, nn);
    XorNothing(Xor(mid, kk));
  }

  lemma InByte(a: nat, b: nat)
    requires a < 0x100 && b < 0x100
    ensures Xor(a, b) < 0x100
  {
    Power256();
    XorBound(a, b, 0x100);
  }

  /**
    Sequential hashing starts as section 3.3 of RFC 7693 says: from the initialization vector, with 0x01010000, the key
    length shifted by a byte and the digest length taken into the first word by exclusive or, and the others as they are.
   */
  lemma SequentialStart(nn: Byte, kk: Byte)
    ensures Start(Param(nn, kk, 1, 1, 0, 0, 0)) ==
            IV[0 := XorWord(XorWord(XorWord(IV[0], 0x0101_0000), 0x100 * (kk as int)), nn)]
  {
    hide Xor;
    var h := Start(Param(nn, kk, 1, 1, 0, 0, 0));
    FirstWord(IV[0], nn, kk);
    forall i | 1 <= i < 8 ensures h[i] == IV[i] {
      XorNothing(IV[i]);
    }
  }

  // ---------- the counter ----------

  function Low(n: nat): Word {
    n % 0x1_0000_0000
  }

  function High(n: nat): Word {
    n / 0x1_0000_0000 % 0x1_0000_0000
  }

  /** Adding to the low word and carrying into the high one counts modulo 2^64. */
  lemma CountOn(n: nat, inc: Word)
    ensures Low(n + inc) == Plus(Low(n), inc)
    ensures High(n + inc) == Plus(High(n), if Plus(Low(n), inc) < inc then 1 else 0)
  {
    var q, r := n / 0x1_0000_0000, n % 0x1_0000_0000;
    assert n + inc == 0x1_0000_0000 * q + (r + inc);
    if r + inc < 0x1_0000_0000 {
      Split(n + inc, q, r + inc);
    } else {
      Split(n + inc, q + 1, r + inc - 0x1_0000_0000);
      NextWord(q);
    }
  }

  lemma Split(x: nat, q: nat, r: nat)
    requires x == 0x1_0000_0000 * q + r && r < 0x1_0000_0000
    ensures x / 0x1_0000_0000 == q && x % 0x1_0000_0000 == r
  {
  }

  lemma NextWord(q: nat)
    ensures (q + 1) % 0x1_0000_0000 == Plus(q % 0x1_0000_0000, 1)
  {
    var a, b := q / 0x1_0000_0000, q % 0x1_0000_0000;
    assert q == 0x1_0000_0000 * a + b;
    if b + 1 < 0x1_0000_0000 {
      Split(q + 1, a, b + 1);
    } else {
      Split(q + 1, a + 1, 0);
    }
  }

  // ---------- the hash ----------

  function Padded(b: seq<Byte>): (r: seq<Byte>)
    requires |b| <= BLOCKBYTES
    ensures |r| == BLOCKBYTES
  {
    b + seq(BLOCKBYTES - |b|, _ => 0)
  }

  /** The data blocks: the last one padded with zeros, and a block of zeros for no data at all. */
  function Blocks(data: seq<Byte>): seq<seq<Byte>>
    decreases |data|
  {
    if |data| <= BLOCKBYTES then [Padded(data)] else [data[..BLOCKBYTES]] + Blocks(data[BLOCKBYTES..])
  }

  /** The chain value after the first `i` blocks, none of them the last. */
  function ChainAfter(F: Compression, h: Chain, d: seq<seq<Byte>>, i: nat): Chain
    requires i <= |d|
  {
    if i == 0 then h
    else F(ChainAfter(F, h, d, i - 1), d[i - 1], Low(BLOCKBYTES * i), High(BLOCKBYTES * i), 0, 0)
  }

  const ALL_ONES: Word := 0xFFFF_FFFF

  /** The final chain value of section 3.3, for `ll` bytes of data; tree hashing also marks the last node of a level. */
  function Final(F: Compression, h: Chain, d: seq<seq<Byte>>, ll: nat, lastNode: bool): Chain
    requires d != []
  {
    F(ChainAfter(F, h, d, |d| - 1), d[|d| - 1], Low(ll), High(ll), ALL_ONES, if lastNode then ALL_ONES else 0)
  }

  /** Words as bytes, least significant first. */
  function Stored(h: seq<Word>): (r: seq<Byte>)
    ensures |r| == 4 * |h|
  {
    if h == [] then []
    else [h[0] % 0x100, h[0] / 0x100 % 0x100, h[0] / 0x1_0000 % 0x100, h[0] / 0x100_0000] + Stored(h[1..])
  }

  /** The four bytes at `k` as a word, least significant first. */
  function Quad(b: seq<Byte>, k: nat): nat
    requires k + 4 <= |b|
  {
    b[k] + 0x100 * (b[k + 1] as int) + 0x1_0000 * (b[k + 2] as int) + 0x100_0000 * (b[k + 3] as int)
  }

  /** Every word of a chain value is found again in its four bytes. */
  lemma {:induction false} StoredWord(h: seq<Word>, i: nat)
    requires i < |h|
    ensures Quad(Stored(h), 4 * i) == h[i]
  {
    if i == 0 {
      WordBytes(h[0]);
    } else {
      StoredWord(h[1..], i - 1);
      assert forall k :: 0 <= k < 4 * |h| - 4 ==> Stored(h)[4 + k] == Stored(h[1..])[k];
    }
  }

  lemma WordBytes(w: Word)
    ensures w % 0x100 + 0x100 * (w / 0x100 % 0x100) + 0x1_0000 * (w / 0x1_0000 % 0x100) + 0x100_0000 * (w / 0x100_0000) == w
  {
    var a, b := w / 0x100, w / 0x1_0000;
    assert w == 0x100 * a + w % 0x100;
    assert a == 0x100 * b + a % 0x100 by {
      assert a / 0x100 == b;
    }
    assert b == 0x100 * (w / 0x100_0000) + b % 0x100 by {
      assert b / 0x100 == w / 0x100_0000;
    }
  }

  /**
    The parameter block, and the words it is taken in by: digest length, key length, fanout and depth come first, the
    node offset is in bytes 8 to 11, the node depth in byte 14 and the inner length in byte 15; all others are 0.
   */
  lemma ParamBlock(p: Param) returns (b: seq<Byte>)
    ensures |b| == 32
    ensures b[0] == p.digestLength && b[1] == p.keyLength && b[2] == p.fanout && b[3] == p.depth
    ensures Quad(b, 8) == p.nodeOffset && b[14] == p.nodeDepth && b[15] == p.innerLength
    ensures forall k :: 0 <= k < 32 && !(k < 4 || 8 <= k < 12 || k == 14 || k == 15) ==> b[k] == 0
    ensures forall i :: 0 <= i < 8 ==> Start(p)[i] == XorWord(IV[i], Quad(b, 4 * i))
  {
    b := ParamBytes(p);
    ParamQuads(p);
    hide Quad;
    hide ParamBytes;
  }

  function ParamBytes(p: Param): (b: seq<Byte>)
    ensures |b| == 32 && Quad(b, 8) == p.nodeOffset
    ensures b[0] == p.digestLength && b[1] == p.keyLength && b[2] == p.fanout && b[3] == p.depth
    ensures b[14] == p.nodeDepth && b[15] == p.innerLength
    ensures forall k :: 0 <= k < 32 && !(k < 4 || 8 <= k < 12 || k == 14 || k == 15) ==> b[k] == 0
  {
    var n := p.nodeOffset;
    WordBytes(n);
    [p.digestLength, p.keyLength, p.fanout, p.depth] + seq(4, _ => 0)
    + [n % 0x100, n / 0x100 % 0x100, n / 0x1_0000 % 0x100, n / 0x100_0000, 0, 0, p.nodeDepth, p.innerLength]
    + seq(16, _ => 0)
  }

  lemma ParamQuads(p: Param)
    ensures forall i :: 0 <= i < 8 ==> ParamWord(p, i) == Quad(ParamBytes(p), 4 * i)
  {
    var b := ParamBytes(p);
    hide ParamBytes;
    forall i | 0 <= i < 8 ensures ParamWord(p, i) == Quad(b, 4 * i) {
      if i == 1 || 4 <= i {
        assert b[4 * i] == 0 && b[4 * i + 1] == 0 && b[4 * i + 2] == 0 && b[4 * i + 3] == 0;
      }
    }
  }

  function Digest(F: Compression, h: Chain, data: seq<Byte>, lastNode: bool): (r: seq<Byte>)
    ensures |r| == OUTBYTES
  {
    BlocksNotEmpty(data);
    Stored(Final(F, h, Blocks(data), |data|, lastNode))
  }

  /** A digest holds the words of the final chain value. */
  lemma DigestWord(F: Compression, h: Chain, data: seq<Byte>, lastNode: bool, i: nat)
    requires i < 8
    ensures Blocks(data) != []
    ensures Quad(Digest(F, h, data, lastNode), 4 * i) == Final(F, h, Blocks(data), |data|, lastNode)[i]
  {
    hide Stored;
    hide Final;
    hide Quad;
    BlocksNotEmpty(data);
    StoredWord(Final(F, h, Blocks(data), |data|, lastNode), i);
  }

  lemma BlocksNotEmpty(data: seq<Byte>)
    ensures Blocks(data) != []
  {
  }

  /** With a key, the first data block is the key, padded with zeros. */
  function Keyed(key: seq<Byte>, message: seq<Byte>): seq<Byte>
    requires |key| <= KEYBYTES
  {
    if key == [] then message else Padded(key) + message
  }

  // ---------- blocks of growing data ----------

  /** Where the blocks are: all but the last are plain slices. */
  lemma {:induction false} BlockAt(data: seq<Byte>, k: nat)
    requires BLOCKBYTES * k < |data| || (k == 0 && data == [])
    ensures k < |Blocks(data)|
    ensures BLOCKBYTES * (k + 1) < |data| ==> Blocks(data)[k] == data[BLOCKBYTES * k..BLOCKBYTES * (k + 1)] && k + 1 < |Blocks(data)|
    ensures BLOCKBYTES * (k + 1) >= |data| ==>
              k + 1 == |Blocks(data)| && |data[BLOCKBYTES * k..]| <= BLOCKBYTES
              && Blocks(data)[k] == Padded(data[BLOCKBYTES * k..])
    decreases k
  {
    if |data| <= BLOCKBYTES {
      assert k == 0;
      WholeData(data);
    } else if k > 0 {
      var rest := data[BLOCKBYTES..];
      BlockAt(rest, k - 1);
      assert rest[BLOCKBYTES * (k - 1)..] == data[BLOCKBYTES * k..];
      if BLOCKBYTES * (k + 1) < |data| {
        assert rest[BLOCKBYTES * (k - 1)..BLOCKBYTES * k] == data[BLOCKBYTES * k..BLOCKBYTES * (k + 1)];
      }
    }
  }

  /** The chain value depends on the blocks used only. */
  lemma {:induction false} ChainSame(F: Compression, h: Chain, d: seq<seq<Byte>>, e: seq<seq<Byte>>, i: nat)
    requires i <= |d| && i <= |e| && d[..i] == e[..i]
    ensures ChainAfter(F, h, d, i) == ChainAfter(F, h, e, i)
  {
    if i > 0 {
      assert d[..i - 1] == d[..i][..i - 1] && e[..i - 1] == e[..i][..i - 1];
      ChainSame(F, h, d, e, i - 1);
      assert d[i - 1] == d[..i][i - 1] && e[i - 1] == e[..i][i - 1];
    }
  }

  /** Blocks already known not to be the last stay the same when data is added. */
  lemma BlocksGrow(data: seq<Byte>, more: seq<Byte>, i: nat)
    requires BLOCKBYTES * i < |data| || i == 0
    ensures i <= |Blocks(data)| && i <= |Blocks(data + more)| && Blocks(data)[..i] == Blocks(data + more)[..i]
  {
    if i > 0 {
      BlockAt(data, i);
      BlockAt(data + more, i);
      forall k: nat | k < i ensures Blocks(data)[k] == Blocks(data + more)[k] {
        BlockAt(data, k);
        BlockAt(data + more, k);
        assert data[BLOCKBYTES * k..BLOCKBYTES * (k + 1)] == (data + more)[BLOCKBYTES * k..BLOCKBYTES * (k + 1)];
      }
    }
  }

  // ---------- the same from the front ----------

  /**
    The loop of section 3.3 as it is written there: `count` bytes are compressed so far. A block is passed with the number
    of bytes up to its end, in two words; the last one also with the final flag, and that of the last node.
   */
  function HashOn(F: Compression, h: Chain, data: seq<Byte>, count: nat, lastNode: bool): Chain
    decreases |data|
  {
    var t := count + if |data| <= 64 then |data| else 64;
    var low, high := t % 0x1_0000_0000, t / 0x1_0000_0000 % 0x1_0000_0000;
    if |data| <= 64 then F(h, data + seq(64 - |data|, _ => 0), low, high, 0xFFFF_FFFF, if lastNode then 0xFFFF_FFFF else 0)
    else HashOn(F, F(h, data[..64], low, high, 0, 0), data[64..], t, lastNode)
  }

  lemma {:induction false} HashesOn(F: Compression, h: Chain, data: seq<Byte>, lastNode: bool, k: nat)
    requires 64 * k < |data| || (k == 0 && data == [])
    ensures k <= |Blocks(data)| && Blocks(data) != []
    ensures HashOn(F, ChainAfter(F, h, Blocks(data), k), data[64 * k..], 64 * k, lastNode)
         == Final(F, h, Blocks(data), |data|, lastNode)
    decreases |data| - 64 * k
  {
    hide Blocks;
    BlockAt(data, k);
    BlocksNotEmpty(data);
    var rest := data[64 * k..];
    if |rest| > 64 {
      assert rest[..64] == data[64 * k..64 * (k + 1)] && rest[64..] == data[64 * (k + 1)..];
      hide Padded;
      HashesOn(F, h, data, lastNode, k + 1);
    }
  }

  /** Hashing block by block from the front is hashing as defined by the blocks. */
  lemma HashFromFront(F: Compression, h: Chain, data: seq<Byte>, lastNode: bool)
    ensures Digest(F, h, data, lastNode) == Stored(HashOn(F, h, data, 0, lastNode))
  {
    hide Stored;
    hide HashOn;
    hide Blocks;
    hide Final;
    HashesOn(F, h, data, lastNode, 0);
    WholeData(data);
  }

  lemma WholeData(data: seq<Byte>)
    ensures data[64 * 0..] == data
  {
  }
}
