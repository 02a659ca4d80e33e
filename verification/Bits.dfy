/** Bitwise operations on naturals. */
module Bits {

  function And(a: nat, b: nat): nat {
    if a == 0 || b == 0 then 0 else 2 * And(a / 2, b / 2) + if a % 2 == 1 && b % 2 == 1 then 1 else 0
  }

  function Xor(a: nat, b: nat): nat {
    if a == 0 && b == 0 then 0 else 2 * Xor(a / 2, b / 2) + if a % 2 != b % 2 then 1 else 0
  }

  predicate PowerOfTwo(n: nat) {
    n == 1 || (n > 1 && n % 2 == 0 && PowerOfTwo(n / 2))
  }

  /** Masking with a power of two less one is the remainder. */
  lemma {:induction false} MaskIsMod(h: nat, n: nat)
    requires PowerOfTwo(n)
    ensures And(h, n - 1) == h % n
  {
    if n == 1 || h == 0 {
    } else {
      var m := n / 2;
      MaskIsMod(h / 2, m);
      assert (n - 1) / 2 == m - 1 && (n - 1) % 2 == 1;
      if m == 1 {
        assert And(h / 2, 0) == 0;
      }
      Halve(h, m);
    }
  }

  lemma Halve(h: nat, m: nat)
    requires m > 0
    ensures h % (2 * m) == 2 * (h / 2 % m) + h % 2
  {
    var q, r := h / 2 / m, h / 2 % m;
    assert h / 2 == q * m + r;
    assert h == 2 * (h / 2) + h % 2;
    Remainder(h, 2 * m, q, 2 * r + h % 2);
  }

  lemma Remainder(x: nat, d: nat, q: nat, r: nat)
    requires r < d && x == q * d + r
    ensures x % d == r
  {
    var p := x / d;
    assert x == p * d + x % d;
    if p < q {
      Times(p + 1, q, d);
    } else if q < p {
      Times(q + 1, p, d);
    }
  }

  lemma Times(a: nat, b: nat, d: nat)
    requires a <= b
    ensures a * d <= b * d
  {
  }

  /** Exclusive or stays within any power of two that bounds both operands. */
  lemma {:induction false} XorBound(a: nat, b: nat, n: nat)
    requires PowerOfTwo(n) && a < n && b < n
    ensures Xor(a, b) < n
  {
    if n > 1 && !(a == 0 && b == 0) {
      XorBound(a / 2, b / 2, n / 2);
    }
  }

  /** Exclusive or with the same number twice changes nothing. */
  lemma {:induction false} XorTwice(a: nat, b: nat)
    ensures Xor(Xor(a, b), b) == a
  {
    if a == 0 && b == 0 {
    } else {
      XorTwice(a / 2, b / 2);
      assert Xor(a, b) / 2 == Xor(a / 2, b / 2);
      assert Xor(a, b) % 2 == if a % 2 != b % 2 then 1 else 0;
    }
  }

  lemma {:induction false} XorOther(a: nat, b: nat)
    ensures Xor(a, Xor(a, b)) == b
  {
    if a == 0 && b == 0 {
    } else {
      XorOther(a / 2, b / 2);
      assert Xor(a, b) / 2 == Xor(a / 2, b / 2);
      assert Xor(a, b) % 2 == if a % 2 != b % 2 then 1 else 0;
    }
  }

  /** Each binary digit on its own: exclusive or has a one where the two differ. */
  lemma {:induction false} XorDigit(a: nat, b: nat, p: nat)
    requires PowerOfTwo(p)
    ensures Xor(a, b) / p % 2 == 1 <==> a / p % 2 != b / p % 2
    decreases p
  {
    assert Xor(a, b) / 2 == Xor(a / 2, b / 2) && Xor(a, b) % 2 == if a % 2 != b % 2 then 1 else 0;
    if p > 1 {
      XorDigit(a / 2, b / 2, p / 2);
      Twice(Xor(a, b), p / 2);
      Twice(a, p / 2);
      Twice(b, p / 2);
    }
  }

  lemma Twice(n: nat, p: nat)
    requires 0 < p
    ensures n / (2 * p) == n / 2 / p
  {
    Halve(n, p);
    var q := n / 2 / p;
    assert n / 2 == q * p + n / 2 % p && n == 2 * (n / 2) + n % 2;
    assert n == q * (2 * p) + n % (2 * p);
    assert n == n / (2 * p) * (2 * p) + n % (2 * p);
  }
}
