/** Machine words and byte strings shared by the codec models. */
module Words {
  type Byte = x: int | 0 <= x < 0x100
  type Word = x: int | 0 <= x < 0x1_0000_0000

  /** The largest `size_t`. */
  const SIZE_MAX: nat := 0xFFFF_FFFF_FFFF_FFFF

  /** Unsigned 32-bit wrap-around. */
  function U32(x: int): Word {
    x % 0x1_0000_0000
  }

  lemma SmallWord(x: nat)
    requires x < 0x1_0000_0000
    ensures U32(x) == x
  {
  }

  /** 32-bit addition, subtraction, and shifting left by a byte. */
  function Plus(a: Word, b: Word): Word {
    if a + b < 0x1_0000_0000 then a + b else a + b - 0x1_0000_0000
  }

  function Minus(a: Word, b: Word): Word {
    if b <= a then a - b else a - b + 0x1_0000_0000
  }

  function Up(a: Word): Word {
    256 * (a % 0x100_0000)
  }

  function Push(a: Word, b: Byte): Word {
    Up(a) + b
  }

  lemma WordOps(a: Word, b: Word)
    ensures Plus(a, b) == U32(a as int + b as int)
    ensures Minus(a, b) == U32(a as int - b as int)
    ensures Up(a) == U32(256 * (a as int))
  {
    var top, rest := a / 0x100_0000, a % 0x100_0000;
    assert 256 * a == 0x1_0000_0000 * top + 256 * rest;
  }

  function Pow2(k: nat): (r: nat)
    ensures 0 < r
  {
    if k == 0 then 1 else 2 * Pow2(k - 1)
  }

  function Pow256(k: nat): (r: nat)
    ensures r > 0
  {
    if k == 0 then 1 else 256 * Pow256(k - 1)
  }

  lemma {:induction false} Pow256Sum(a: nat, b: nat)
    ensures Pow256(a + b) == Pow256(a) * Pow256(b)
  {
    if a == 0 {
    } else {
      Pow256Sum(a - 1, b);
      calc {
        Pow256(a + b);
        256 * Pow256(a - 1 + b);
        256 * (Pow256(a - 1) * Pow256(b));
        256 * Pow256(a - 1) * Pow256(b);
      }
    }
  }

  /** The number written by `s` in base 256, most significant byte first. */
  function Val(s: seq<Byte>): nat {
    if s == [] then 0 else 256 * Val(s[..|s| - 1]) + s[|s| - 1]
  }

  /** The last `n` base-256 digits of `v`, most significant first. */
  function BigEndian(v: nat, n: nat): (s: seq<Byte>)
    ensures |s| == n
  {
    if n == 0 then [] else BigEndian(v / 256, n - 1) + [v % 256]
  }

  lemma {:induction false} ValBound(s: seq<Byte>)
    ensures Val(s) < Pow256(|s|)
  {
    if s == [] {
    } else {
      ValBound(s[..|s| - 1]);
    }
  }

  lemma ValSnoc(s: seq<Byte>, b: Byte)
    ensures Val(s + [b]) == 256 * Val(s) + b
  {
    assert (s + [b])[..|s|] == s;
  }

  /** The last digit and the number before it. */
  lemma LastDigit(v: nat, n: nat) returns (q: nat, d: Byte)
    requires 0 < n && v < Pow256(n)
    ensures v == 256 * q + d && q < Pow256(n - 1) && BigEndian(v, n) == BigEndian(q, n - 1) + [d]
  {
    q, d := v / 256, v % 256;
  }

  lemma {:induction false} BigEndianVal(v: nat, n: nat)
    requires v < Pow256(n)
    ensures Val(BigEndian(v, n)) == v
    decreases n
  {
    if n == 0 {
    } else {
      var q, d := LastDigit(v, n);
      hide BigEndian;
      hide Pow256;
      hide Val;
      BigEndianVal(q, n - 1);
      ValSnoc(BigEndian(q, n - 1), d);
    }
  }

  /** A byte string is the digit string of the number it writes. */
  lemma {:induction false} ValBigEndian(s: seq<Byte>)
    ensures BigEndian(Val(s), |s|) == s
  {
    if s == [] {
    } else {
      var front, last := s[..|s| - 1], s[|s| - 1];
      ValBigEndian(front);
      assert Val(s) / 256 == Val(front) && Val(s) % 256 == last;
      assert front + [last] == s;
    }
  }

  /** Dropping the last j digits divides by 256^j. */
  lemma {:induction false} ValPrefix(s: seq<Byte>, k: nat)
    requires k <= |s|
    ensures Val(s[..k]) * Pow256(|s| - k) <= Val(s) < (Val(s[..k]) + 1) * Pow256(|s| - k)
    decreases |s|
  {
    if k == |s| {
      assert s[..k] == s;
    } else {
      var front := s[..|s| - 1];
      ValPrefix(front, k);
      assert front[..k] == s[..k];
      Scale256(Val(s[..k]), Pow256(|front| - k), Val(front), s[|s| - 1]);
    }
  }

  lemma Scale256(a: nat, p: nat, v: nat, d: Byte)
    requires a * p <= v < (a + 1) * p
    ensures a * (256 * p) <= 256 * v + d < (a + 1) * (256 * p)
  {
    var m, n := a * p, (a + 1) * p;
    assert a * (256 * p) == 256 * m;
    assert (a + 1) * (256 * p) == 256 * n;
  }

  lemma MulLe(a: int, b: int, p: nat)
    requires a <= b
    ensures a * p <= b * p
  {
  }

  lemma MulShift(a: int, p: int)
    ensures a * (256 * p) == (256 * a) * p
  {
  }

  lemma SliceAcross(m: seq<Byte>, x: seq<Byte>, at: nat, n: nat)
    requires at <= |m| <= at + n <= |m| + |x|
    ensures (m + x)[at..at + n] == m[at..] + x[..at + n - |m|]
  {
  }

  lemma SliceBehind(m: seq<Byte>, x: seq<Byte>, a: nat, b: nat)
    requires a <= b <= |x|
    ensures (m + x)[|m| + a..|m| + b] == x[a..b]
    ensures b == |x| ==> (m + x)[|m| + a..] == x[a..]
  {
  }

  lemma SliceOfSlice<T>(s: seq<T>, a: nat, b: nat, c: nat, d: nat)
    requires a <= b <= |s| && c <= d <= b - a
    ensures s[a..b][c..d] == s[a + c..a + d]
  {
    var x, y := s[a..b][c..d], s[a + c..a + d];
    assert forall k :: 0 <= k < d - c ==> x[k] == s[a..b][c + k] == s[a + (c + k)] == y[k];
  }

  lemma SliceGrows(s: seq<Byte>, a: nat, b: nat)
    requires a <= b <= |s|
    ensures s[..b] == s[..a] + s[a..b]
  {
  }

  /** `k` copies of one byte. */
  function Repeat(b: Byte, k: nat): (s: seq<Byte>)
    ensures |s| == k
  {
    if k == 0 then [] else Repeat(b, k - 1) + [b]
  }

  /** Adding one to a number that ends in k digits 255 turns them into zeros and bumps the digit before. */
  lemma {:induction false} ValCarry(s: seq<Byte>, c: Byte, k: nat)
    requires c < 255
    ensures Val(s + [c] + Repeat(255, k)) + 1 == Val(s + [c + 1] + Repeat(0, k))
  {
    if k == 0 {
      assert s + [c] + [] == s + [c];
      assert s + [c + 1] + [] == s + [c + 1];
      ValSnoc(s, c);
      ValSnoc(s, c + 1);
    } else {
      ValCarry(s, c, k - 1);
      assert s + [c] + Repeat(255, k) == (s + [c] + Repeat(255, k - 1)) + [255];
      assert s + [c + 1] + Repeat(0, k) == (s + [c + 1] + Repeat(0, k - 1)) + [0];
      ValSnoc(s + [c] + Repeat(255, k - 1), 255);
      ValSnoc(s + [c + 1] + Repeat(0, k - 1), 0);
    }
  }

  /** A byte string that comes in pieces. */
  function Concat(chunks: seq<seq<Byte>>): seq<Byte> {
    if chunks == [] then [] else Concat(chunks[..|chunks| - 1]) + chunks[|chunks| - 1]
  }

  lemma ConcatSnoc(chunks: seq<seq<Byte>>, chunk: seq<Byte>)
    ensures Concat(chunks + [chunk]) == Concat(chunks) + chunk
  {
    assert (chunks + [chunk])[..|chunks|] == chunks;
  }
}
