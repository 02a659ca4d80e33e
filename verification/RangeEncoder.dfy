/** The 7z range encoder: 33-bit `low`, one cached byte, and a count of 255s that a carry may still turn over. */
module RangeEncoder {
  import opened Words
  import opened RangeSpec

  /** The carry, the top byte and the low three bytes of a 33-bit `low`. */
  ghost predicate Split(low: nat, carry: nat, top: nat, rest: nat) {
    low == carry * 0x1_0000_0000 + top * 0x100_0000 + rest && carry < 2 && top < 256 && rest < 0x100_0000
  }

  method SplitLow(low: nat) returns (carry: nat, top: Byte, rest: nat)
    requires low < 0x2_0000_0000
    ensures Split(low, carry, top, rest)
  {
    carry := low / 0x1_0000_0000;
    top := low % 0x1_0000_0000 / 0x100_0000;
    rest := low % 0x100_0000;
  }

  /** The bytes already decided or pending, carry aside, read as one number. */
  function Digits(output: seq<Byte>, cache: Byte, pending: nat): nat {
    Val(output + [cache] + Repeat(255, pending))
  }

  lemma DigitsAlone(output: seq<Byte>, cache: Byte)
    ensures Digits(output, cache, 0) == 256 * Val(output) + cache
  {
    assert output + [cache] + Repeat(255, 0) == output + [cache];
    ValSnoc(output, cache);
  }

  lemma DigitsMore(output: seq<Byte>, cache: Byte, pending: nat)
    ensures Digits(output, cache, pending + 1) == 256 * Digits(output, cache, pending) + 255
  {
    var all := output + [cache] + Repeat(255, pending);
    assert output + [cache] + Repeat(255, pending + 1) == all + [255];
    ValSnoc(all, 255);
  }

  function Scale(v: nat, k: nat): nat {
    if k == 0 then v else 256 * Scale(v, k - 1)
  }

  /** After `k` shifts the low `k` bytes of `low` are zero: it is `q` times 256^k, and after four it is zero. */
  ghost predicate Zeros(low: nat, k: nat, q: int) {
    match k
    case 0 => low == q
    case 1 => low == 0x100 * q
    case 2 => low == 0x1_0000 * q
    case 3 => low == 0x100_0000 * q
    case _ => low == 0
  }

  lemma ZerosGrow(low: nat, k: nat, q: int, carry: nat, top: nat, rest: nat) returns (q': int)
    requires Zeros(low, k, q) && Split(low, carry, top, rest)
    ensures Zeros(256 * rest, k + 1, q')
  {
    var moved := 256 * carry + top;
    if k == 0 {
      q' := q - 0x100_0000 * moved;
    } else if k == 1 {
      q' := q - 0x1_0000 * moved;
    } else if k == 2 {
      q' := q - 0x100 * moved;
    } else {
      q' := 0;
      if k == 3 {
        assert rest == 0x100_0000 * (q - moved);
      }
    }
  }

  class Encoder {
    var low: nat
    var range: Word
    var cache: Byte
    var cacheSize: nat
    var output: seq<Byte>

    /** What the emitted bytes, the cache, the pending 255s and `low` stand for together. */
    ghost function Abs(): Interval
      reads this
      requires 0 < cacheSize
    {
      Interval(Digits(output, cache, cacheSize - 1) * 0x1_0000_0000 + low, range, |output| + cacheSize - 1)
    }

    /** A carry out of `low` can still be absorbed by the cached byte. */
    ghost predicate CanShift()
      reads this
    {
      0 < cacheSize && low < 0x2_0000_0000 && (cache == 255 ==> low < 0x1_0000_0000)
    }

    /** The same for every point of the current interval. */
    ghost predicate Roomy()
      reads this
    {
      0 < cacheSize && 0 < range && low + range <= 0x2_0000_0000 && (cache == 255 ==> low + range <= 0x1_0000_0000)
    }

    ghost predicate Valid()
      reads this
    {
      Roomy() && 0x100_0000 <= range
    }

    constructor ()
      ensures Valid() && output == [] && Abs() == START && range == 0xFFFF_FFFF
    {
      low := 0;
      range := 0xFFFF_FFFF;
      cache := 0;
      cacheSize := 1;
      output := [];
      new;
      assert [] + [0] + Repeat(255, 0) == [] + [0];
      ValSnoc([], 0);
    }

    /** Writes the cached byte and the pending 255s, each with the carry added. */
    method Emit(carry: nat)
      requires 0 < cacheSize && carry < 2 && (cache == 255 ==> carry == 0)
      modifies `cacheSize, `output
      ensures cacheSize == 0
      ensures |output| == |old(output)| + old(cacheSize)
      ensures Val(output) == Digits(old(output), cache, old(cacheSize) - 1) + carry
    {
      var temp: Byte := cache;
      output := output + [(temp + carry) % 256];
      temp := 255;
      cacheSize := cacheSize - 1;
      ghost var k := 0;
      while cacheSize != 0
        invariant k + cacheSize == old(cacheSize) - 1
        invariant output == old(output) + [cache + carry] + Repeat((255 + carry) % 256, k)
      {
        output := output + [(temp + carry) % 256];
        cacheSize := cacheSize - 1;
        k := k + 1;
      }
      if carry == 1 {
        ValCarry(old(output), cache, k);
      }
    }

    /** Scales the code by 256, letting out what can no longer change. */
    method ShiftLow() returns (ghost carry: nat, ghost top: nat, ghost rest: nat)
      requires CanShift()
      modifies `low, `cache, `cacheSize, `output
      ensures CanShift()
      ensures Split(old(low), carry, top, rest) && low == 256 * rest
      ensures Abs() == Interval(256 * old(Abs().low), range, old(Abs().shifts) + 1)
      ensures cache == 255 ==> top == 255 && (carry == 1 || old(cache) == 255)
      ensures top < 255 || carry == 1 ==> cacheSize == 1 && cache == top
    {
      hide Digits;
      hide Val;
      var c, t, r := SplitLow(low);
      carry, top, rest := c, t, r;
      if low < 0xFF00_0000 || c != 0 {
        Emit(c);
        cache := t;
        DigitsAlone(output, t);
      } else {
        DigitsMore(output, cache, cacheSize - 1);
      }
      cacheSize := cacheSize + 1;
      low := 256 * r;
    }

    /** One turn of the scaling loop. */
    method ScaleUp()
      requires Roomy() && range < 0x100_0000
      modifies this
      ensures Roomy() && range == 256 * old(range)
      ensures Abs() == Interval(256 * old(Abs().low), range, old(Abs().shifts) + 1)
    {
      hide Digits;
      SmallWord(range * 256);
      range := U32(range * 256);
      var _, _, _ := ShiftLow();
    }

    /** The loop shared by the three encoders: scale until the range has its top byte back. */
    method Renormalize()
      requires Roomy()
      modifies this
      ensures Valid() && Abs() == Normalize(old(Abs()))
    {
      hide Digits;
      while range < 0x100_0000
        invariant Roomy() && Normalize(Abs()) == Normalize(old(Abs()))
        decreases 0x100_0000 - range
      {
        ScaleUp();
      }
    }

    method Encode(start: nat, size: nat, total: nat)
      requires Valid() && ValidStep(Symbol(start, size, total))
      modifies this
      ensures Valid() && Abs() == Take(old(Abs()), Symbol(start, size, total))
    {
      PartBound(range, total, start, size);
      ghost var next := Narrow(Abs(), Symbol(start, size, total));
      range := range / total;
      assert start * range == Part(old(range), total, start) && range * size == Part(old(range), total, size);
      low := low + start * range;
      range := U32(range * size);
      assert Abs() == next;
      Renormalize();
    }

    method EncodeBit0(size0: nat)
      requires Valid() && ValidStep(Bit(size0, 0))
      modifies this
      ensures Valid() && Abs() == Take(old(Abs()), Bit(size0, 0))
    {
      BitBound(range, size0);
      range := U32(Bound(range, size0));
      Renormalize();
    }

    method EncodeBit1(size0: nat)
      requires Valid() && ValidStep(Bit(size0, 1))
      modifies this
      ensures Valid() && Abs() == Take(old(Abs()), Bit(size0, 1))
    {
      BitBound(range, size0);
      var bound := U32(Bound(range, size0));
      low := low + bound;
      range := range - bound;
      Renormalize();
    }

    /** Five shifts: afterwards the output holds every digit of the exact sum. */
    method FlushData()
      requires CanShift()
      modifies this
      ensures output == BigEndian(old(Abs().low), old(Abs().shifts) + 5)
    {
      ghost var v, m := Abs().low, Abs().shifts;
      ghost var q := low;
      for i := 0 to 5
        invariant CanShift() && Abs().shifts == m + i
        invariant Abs().low == Scale(v, i)
        invariant Zeros(low, i, q)
        invariant i == 5 ==> cache == 0 && cacheSize == 1
      {
        ghost var before := low;
        ghost var carry, top, rest := ShiftLow();
        q := ZerosGrow(before, i, q, carry, top, rest);
      }
      assert output + [0] + Repeat(255, 0) == output + [0];
      ValSnoc(output, 0);
      assert Scale(v, 2) == 0x1_0000 * v;
      assert Scale(v, 4) == 0x1_0000_0000 * v;
      assert Scale(v, 5) == 256 * 0x1_0000_0000 * v;
      ValBigEndian(output);
    }
  }
}
