/** Counter and chaining modes over an opaque block cipher. */
module CipherSpec {
  import opened Bits
  import opened Words

  type Block = s: seq<Byte> | |s| == 16 witness seq(16, _ => 0)

  /** One direction of a block cipher under a key. */
  type Cipher = Block -> Block

  function XorByte(a: Byte, b: Byte): Byte {
    assert PowerOfTwo(0x100) by {
      Power8();
    }
    XorBound(a, b, 0x100);
    Xor(a, b)
  }

  lemma Power8()
    ensures PowerOfTwo(0x100)
  {
    assert PowerOfTwo(1) && PowerOfTwo(2) && PowerOfTwo(4) && PowerOfTwo(8) && PowerOfTwo(16) && PowerOfTwo(32);
    assert PowerOfTwo(64) && PowerOfTwo(128);
  }

  // ---------- counter mode ----------

  /** The last `n` base-256 digits of `v`, least significant first. */
  function LittleEndian(v: nat, n: nat): (s: seq<Byte>)
    ensures |s| == n
  {
    if n == 0 then [] else [v % 256] + LittleEndian(v / 256, n - 1)
  }

  /** The block with counter `k`: eight bytes, so modulo 2^64, and zeros. */
  function Nonce(k: nat): Block {
    LittleEndian(k, 8) + seq(8, _ => 0)
  }

  lemma NonceZero()
    ensures Nonce(0) == seq(16, _ => 0)
  {
    assert forall n: nat :: n < 8 ==> LittleEndian(0, n + 1) == [0] + LittleEndian(0, n);
    assert LittleEndian(0, 4) == [0, 0, 0, 0];
    assert LittleEndian(0, 8) == [0, 0, 0, 0, 0, 0, 0, 0];
  }

  /** Adding one, with the carry going on from byte to byte. */
  function Increment(s: seq<Byte>): (r: seq<Byte>)
    ensures |r| == |s|
  {
    if s == [] then [] else if s[0] == 255 then [0] + Increment(s[1..]) else [s[0] + 1] + s[1..]
  }

  lemma IncrementCons(x: Byte, rest: seq<Byte>)
    ensures Increment([x] + rest) == if x == 255 then [0] + Increment(rest) else [x + 1] + rest
  {
    assert ([x] + rest)[1..] == rest;
  }

  lemma CarryStep(sum: seq<Byte>, before: seq<Byte>, x: Byte, rest: seq<Byte>)
    requires sum == before + Increment([x] + rest)
    ensures x == 255 ==> sum == before + [0] + Increment(rest)
    ensures x != 255 ==> sum == before + [x + 1] + rest
  {
    hide Increment;
    IncrementCons(x, rest);
    if x == 255 {
      Regroup(before, [0], Increment(rest));
    } else {
      Regroup(before, [x + 1], rest);
    }
  }

  lemma Regroup(a: seq<Byte>, b: seq<Byte>, c: seq<Byte>)
    ensures a + (b + c) == a + b + c
  {
  }

  lemma NothingToIncrement()
    ensures Increment([]) == []
  {
  }

  lemma {:induction false} IncrementIs(v: nat, n: nat)
    ensures Increment(LittleEndian(v, n)) == LittleEndian(v + 1, n)
  {
    if n > 0 {
      IncrementIs(v / 256, n - 1);
      if v % 256 == 255 {
        assert (v + 1) % 256 == 0 && (v + 1) / 256 == v / 256 + 1;
      } else {
        assert (v + 1) % 256 == v % 256 + 1 && (v + 1) / 256 == v / 256;
      }
    }
  }

  /** The counter wraps around. */
  lemma NonceWraps(k: nat)
    ensures Nonce(k + 0x1_0000_0000_0000_0000) == Nonce(k)
  {
    Wraps(k, 1, 8);
    assert Pow256(8) == 0x1_0000_0000_0000_0000 by {
      assert Pow256(4) == 0x1_0000_0000;
      Pow256Sum(4, 4);
    }
  }

  lemma OneDigit(v: nat, m: nat, n: nat)
    requires 0 < n
    ensures LittleEndian(v + 256 * m, n) == [v % 256] + LittleEndian(v / 256 + m, n - 1)
  {
    assert (v + 256 * m) % 256 == v % 256 && (v + 256 * m) / 256 == v / 256 + m;
  }

  lemma MulMove(q: nat, p: nat)
    ensures q * (256 * p) == 256 * (q * p)
  {
  }

  lemma {:induction false} Wraps(v: nat, q: nat, n: nat)
    ensures LittleEndian(v + q * Pow256(n), n) == LittleEndian(v, n)
  {
    if n > 0 {
      hide LittleEndian;
      MulMove(q, Pow256(n - 1));
      OneDigit(v, q * Pow256(n - 1), n);
      OneDigit(v, 0, n);
      Wraps(v / 256, q, n - 1);
    }
  }

  /** Byte `i` of the key stream: block k is the cipher of counter k + 1. */
  function KeyByte(cipher: Cipher, i: nat): Byte {
    cipher(Nonce(i / 16 + 1))[i % 16]
  }

  /** The data with the key stream from byte `at` on. */
  function Stream(cipher: Cipher, data: seq<Byte>, at: nat): (r: seq<Byte>)
    ensures |r| == |data|
  {
    seq(|data|, j requires 0 <= j < |data| => XorByte(data[j], KeyByte(cipher, at + j)))
  }

  lemma StreamAppend(cipher: Cipher, a: seq<Byte>, b: seq<Byte>, at: nat)
    ensures Stream(cipher, a + b, at) == Stream(cipher, a, at) + Stream(cipher, b, at + |a|)
  {
    hide XorByte;
    hide KeyByte;
  }

  /** The same key stream a second time gives the data back. */
  lemma StreamTwice(cipher: Cipher, data: seq<Byte>, at: nat)
    ensures Stream(cipher, Stream(cipher, data, at), at) == data
  {
    hide KeyByte;
    forall j: nat | j < |data| ensures Stream(cipher, Stream(cipher, data, at), at)[j] == data[j] {
      XorTwice(data[j], KeyByte(cipher, at + j));
    }
  }

  // ---------- the key stream in the bytes ----------

  /** A number from its eight bytes, least significant first. */
  function Eight(b: seq<Byte>): nat
    requires 8 <= |b|
  {
    b[0] + 0x100 * (b[1] as int) + 0x1_0000 * (b[2] as int) + 0x100_0000 * (b[3] as int)
    + 0x1_0000_0000 * (b[4] + 0x100 * (b[5] as int) + 0x1_0000 * (b[6] as int) + 0x100_0000 * (b[7] as int))
  }

  lemma FourBytes(v: nat)
    ensures var s := LittleEndian(v, 4);
            s[0] + 0x100 * (s[1] as int) + 0x1_0000 * (s[2] as int) + 0x100_0000 * (s[3] as int) == v % 0x1_0000_0000
  {
    hide LittleEndian;
    var a, b, c, d := v / 256, v / 256 / 256, v / 256 / 256 / 256, v / 256 / 256 / 256 / 256;
    NextByte(v, 3);
    NextByte(a, 2);
    NextByte(b, 1);
    NextByte(c, 0);
    assert v == 256 * a + v % 256 && a == 256 * b + a % 256 && b == 256 * c + b % 256 && c == 256 * d + c % 256;
    assert v == 0x1_0000_0000 * d + (v % 256 + 0x100 * (a % 256) + 0x1_0000 * (b % 256) + 0x100_0000 * (c % 256));
  }

  lemma NextByte(v: nat, n: nat)
    ensures LittleEndian(v, n + 1) == [v % 256] + LittleEndian(v / 256, n)
  {
  }

  lemma EightBytes(v: nat)
    ensures LittleEndian(v, 8) == LittleEndian(v, 4) + LittleEndian(v / 0x1_0000_0000, 4)
  {
    hide LittleEndian;
    var a, b, c, d := v / 256, v / 256 / 256, v / 256 / 256 / 256, v / 256 / 256 / 256 / 256;
    assert d == v / 0x1_0000_0000;
    NextByte(v, 3);
    NextByte(a, 2);
    NextByte(b, 1);
    NextByte(c, 0);
    NoBytes(d);
    NextByte(v, 7);
    NextByte(a, 6);
    NextByte(b, 5);
    NextByte(c, 4);
  }

  lemma NoBytes(v: nat)
    ensures LittleEndian(v, 0) == []
  {
  }

  /** The counter block: the number in eight bytes, least significant first, modulo 2^64, and eight zeros. */
  lemma NonceBytes(k: nat)
    ensures Eight(Nonce(k)) == k % 0x1_0000_0000_0000_0000
    ensures forall i :: 8 <= i < 16 ==> Nonce(k)[i] == 0
  {
    hide LittleEndian;
    EightBytes(k);
    FourBytes(k);
    FourBytes(k / 0x1_0000_0000);
    TwoWords(k);
  }

  lemma TwoWords(k: nat)
    ensures k % 0x1_0000_0000 + 0x1_0000_0000 * (k / 0x1_0000_0000 % 0x1_0000_0000) == k % 0x1_0000_0000_0000_0000
  {
    var a := k / 0x1_0000_0000;
    var b := a / 0x1_0000_0000;
    assert k == 0x1_0000_0000_0000_0000 * b + (k % 0x1_0000_0000 + 0x1_0000_0000 * (a % 0x1_0000_0000));
  }

  /** What plain and coded bytes differ by is the cipher of the counter: byte j of block k has that of counter k + 1. */
  lemma KeyShows(cipher: Cipher, data: seq<Byte>, k: nat, j: nat)
    requires j < 16 && 16 * k + j < |data|
    ensures XorByte(data[16 * k + j], Stream(cipher, data, 0)[16 * k + j]) == cipher(Nonce(k + 1))[j]
  {
    XorOther(data[16 * k + j], KeyByte(cipher, 16 * k + j));
    assert (16 * k + j) / 16 == k && (16 * k + j) % 16 == j;
  }

  // ---------- chaining mode, by section 6.2 of NIST SP 800-38A ----------

  function XorBlock(a: Block, b: Block): Block {
    seq(16, j requires 0 <= j < 16 => XorByte(a[j], b[j]))
  }

  lemma XorBlockTwice(a: Block, b: Block)
    ensures XorBlock(XorBlock(a, b), b) == a
  {
    forall j: nat | j < 16 ensures XorBlock(XorBlock(a, b), b)[j] == a[j] {
      XorTwice(a[j], b[j]);
    }
  }

  /** The length of the complete blocks in `n` bytes. */
  function Full(n: nat): (r: nat)
    ensures r % 16 == 0 && r <= n < r + 16
  {
    n - n % 16
  }

  lemma FullSum(first: nat, n: nat)
    requires first % 16 == 0
    ensures Full(first + n) == first + Full(n)
  {
    var q := first / 16;
    assert first == 16 * q && (16 * q + n) % 16 == n % 16;
  }

  /** Whole blocks. */
  type Blocks = s: seq<Byte> | |s| % 16 == 0

  function CbcDecrypt(inverse: Cipher, iv: Block, data: Blocks): (r: Blocks)
    ensures |r| == |data|
    decreases |data|
  {
    if data == [] then [] else XorBlock(inverse(data[..16]), iv) + CbcDecrypt(inverse, data[..16], data[16..])
  }

  function CbcEncrypt(cipher: Cipher, iv: Block, data: Blocks): (r: Blocks)
    ensures |r| == |data|
    decreases |data|
  {
    if data == [] then []
    else
      var c := cipher(XorBlock(data[..16], iv));
      c + CbcEncrypt(cipher, c, data[16..])
  }

  /** The block that the next one is chained to. */
  function LastBlock(iv: Block, data: Blocks): Block {
    if data == [] then iv else data[|data| - 16..]
  }

  lemma Later(s: seq<Byte>, a: nat, b: nat)
    requires 16 <= |s| && a <= b <= |s| - 16
    ensures s[16..][a..b] == s[16 + a..16 + b]
  {
    var x, y := s[16..][a..b], s[16 + a..16 + b];
    assert forall k :: 0 <= k < b - a ==> x[k] == s[16..][a + k] == s[16 + (a + k)] == y[k];
  }

  /** Each block on its own: the inverse cipher of the block, with the block before it or the initial vector. */
  lemma {:induction false} CbcBlock(inverse: Cipher, iv: Block, data: Blocks, j: nat)
    requires 16 * j + 16 <= |data|
    ensures CbcDecrypt(inverse, iv, data)[16 * j..16 * j + 16]
            == XorBlock(inverse(data[16 * j..16 * j + 16]), if j == 0 then iv else data[16 * j - 16..16 * j])
    decreases j
  {
    hide XorBlock;
    var first: seq<Byte> := XorBlock(inverse(data[..16]), iv);
    var rest: seq<Byte> := CbcDecrypt(inverse, data[..16], data[16..]);
    assert CbcDecrypt(inverse, iv, data) == first + rest;
    if j > 0 {
      CbcBlock(inverse, data[..16], data[16..], j - 1);
      assert (first + rest)[16..] == rest;
      Later(first + rest, 16 * j - 16, 16 * j);
      Later(data, 16 * j - 16, 16 * j);
      if j > 1 {
        Later(data, 16 * j - 32, 16 * j - 16);
      }
    }
  }

  /** What a plain byte differs by from the one before chaining is the byte a block before, or that of the initial vector. */
  lemma ChainShows(inverse: Cipher, iv: Block, data: Blocks, k: nat, j: nat)
    requires 16 * k + 16 <= |data| && j < 16
    ensures XorByte(inverse(data[16 * k..16 * k + 16])[j], CbcDecrypt(inverse, iv, data)[16 * k + j])
            == if k == 0 then iv[j] else data[16 * (k - 1) + j]
  {
    hide CbcDecrypt;
    CbcBlock(inverse, iv, data, k);
    var plain := inverse(data[16 * k..16 * k + 16]);
    var chained: Block := if k == 0 then iv else data[16 * k - 16..16 * k];
    assert CbcDecrypt(inverse, iv, data)[16 * k + j] == CbcDecrypt(inverse, iv, data)[16 * k..16 * k + 16][j];
    XorOther(plain[j], chained[j]);
  }

  lemma LastAppend(iv: Block, a: Blocks, b: Blocks)
    ensures LastBlock(iv, a + b) == LastBlock(LastBlock(iv, a), b)
  {
    if b == [] {
      assert a + b == a;
    } else {
      assert (a + b)[|a + b| - 16..] == b[|b| - 16..];
    }
  }

  lemma LastRest(iv: Block, a: Blocks)
    requires a != []
    ensures LastBlock(a[..16], a[16..]) == LastBlock(iv, a)
  {
    if |a| > 16 {
      assert a[16..][|a| - 32..] == a[|a| - 16..];
    }
  }

  lemma CbcStep(inverse: Cipher, iv: Block, data: Blocks)
    requires data != []
    ensures CbcDecrypt(inverse, iv, data) == XorBlock(inverse(data[..16]), iv) + CbcDecrypt(inverse, data[..16], data[16..])
  {
  }

  lemma FrontOf(a: Blocks, b: Blocks) returns (x: Block, rest: Blocks)
    requires a != []
    ensures a[..16] == x && a[16..] == rest && a + b != []
    ensures |rest + b| % 16 == 0 && (a + b)[..16] == x && (a + b)[16..] == rest + b
  {
    x, rest := a[..16], a[16..];
  }

  lemma {:induction false} CbcAppend(inverse: Cipher, iv: Block, a: Blocks, b: Blocks)
    ensures CbcDecrypt(inverse, iv, a + b) == CbcDecrypt(inverse, iv, a) + CbcDecrypt(inverse, LastBlock(iv, a), b)
    ensures LastBlock(iv, a + b) == LastBlock(LastBlock(iv, a), b)
    decreases |a|
  {
    hide XorBlock;
    hide LastBlock;
    LastAppend(iv, a, b);
    if a == [] {
      assert a + b == b;
      LastNone(iv);
    } else {
      var x, rest := FrontOf(a, b);
      LastRest(iv, a);
      CbcStep(inverse, iv, a);
      CbcStep(inverse, iv, a + b);
      hide CbcDecrypt;
      CbcAppend(inverse, x, rest, b);
      Regroup(XorBlock(inverse(x), iv), CbcDecrypt(inverse, x, rest), CbcDecrypt(inverse, LastBlock(iv, a), b));
    }
  }

  lemma LastNone(iv: Block)
    ensures LastBlock(iv, []) == iv
  {
  }

  /** Decryption undoes encryption. */
  lemma {:induction false} CbcUndone(cipher: Cipher, inverse: Cipher, iv: Block, data: Blocks)
    requires forall b :: inverse(cipher(b)) == b
    ensures CbcDecrypt(inverse, iv, CbcEncrypt(cipher, iv, data)) == data
    decreases |data|
  {
    hide XorBlock;
    if data != [] {
      var c := cipher(XorBlock(data[..16], iv));
      var rest: seq<Byte> := CbcEncrypt(cipher, c, data[16..]);
      assert (c + rest)[..16] == c && (c + rest)[16..] == rest;
      XorBlockTwice(data[..16], iv);
      CbcUndone(cipher, inverse, c, data[16..]);
      assert data == data[..16] + data[16..];
    }
  }
}
