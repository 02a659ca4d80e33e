/**
  The range decoders of PPMd7: the 7z one (relative code, no low bound) and the RAR one (absolute code, carryless).
  Both share one normalisation loop.
 */
module RangeDecoder {
  import Bits
  import opened Words
  import opened RangeSpec

  /** The registers, and how many bytes of the input have been asked for. */
  datatype Registers = Registers(range: Word, code: Word, low: Word, bottom: Word, pos: nat)

  /** The byte reader answers 0 at the end of the input. */
  function ReadAt(input: seq<Byte>, pos: nat): Byte {
    if pos < |input| then input[pos] else 0
  }

  // ---------- exclusive or of two top bytes ----------

  function Halve(a: nat, k: nat): nat {
    if k == 0 then a else Halve(a / 2, k - 1)
  }

  lemma {:induction false} XorSmall(a: nat, b: nat, k: nat)
    ensures Bits.Xor(a, b) < Pow2(k) <==> Halve(a, k) == Halve(b, k)
  {
    if k == 0 {
      XorZero(a, b);
    } else {
      XorSmall(a / 2, b / 2, k - 1);
    }
  }

  lemma {:induction false} XorZero(a: nat, b: nat)
    ensures Bits.Xor(a, b) == 0 <==> a == b
    decreases a + b
  {
    if a == 0 && b == 0 {
    } else {
      XorZero(a / 2, b / 2);
    }
  }

  lemma Halve24(a: nat)
    ensures Halve(a, 24) == a / 0x100_0000
  {
    Halve8(a);
    Halve8(a / 0x100);
    Halve8(a / 0x1_0000);
    HalveSum(a, 8, 16);
    HalveSum(a / 0x100, 8, 8);
  }

  lemma Halve2(a: nat)
    ensures Halve(a, 2) == a / 4
  {
    assert Halve(a, 2) == Halve(a / 2, 1) == Halve(a / 2 / 2, 0);
  }

  lemma Halve4(a: nat)
    ensures Halve(a, 4) == a / 16
  {
    Halve2(a);
    Halve2(a / 4);
    HalveSum(a, 2, 2);
  }

  lemma Halve8(a: nat)
    ensures Halve(a, 8) == a / 0x100
  {
    Halve4(a);
    Halve4(a / 16);
    HalveSum(a, 4, 4);
  }

  lemma {:induction false} HalveSum(a: nat, i: nat, j: nat)
    ensures Halve(a, i + j) == Halve(Halve(a, i), j)
  {
    if i == 0 {
    } else {
      HalveSum(a / 2, i - 1, j);
    }
  }

  /** The first byte of the interval and of its end differ, on 32-bit words. */
  predicate TopsDiffer(low: Word, range: Word) {
    low / 0x100_0000 != Plus(low, range) / 0x100_0000
  }

  /** The loop asks for this by exclusive or. */
  lemma XorTops(low: Word, range: Word)
    ensures Bits.Xor(low, Plus(low, range)) >= 0x100_0000 <==> TopsDiffer(low, range)
  {
    XorSmall(low, Plus(low, range), 24);
    assert Pow2(24) == 0x100_0000 by {
      assert Pow2(8) == 0x100 && Pow2(16) == 0x1_0000;
    }
    Halve24(low);
    Halve24(Plus(low, range));
  }

  method TestTops(low: Word, range: Word) returns (differ: bool)
    ensures differ == TopsDiffer(low, range)
  {
    XorTops(low, range);
    differ := Bits.Xor(low, Plus(low, range)) >= 0x100_0000;
  }

  // ---------- the normalisation loop ----------

  /** What keeps the loop going forward; `bottom` is 0 for 7z, 2^15 for RAR. */
  predicate Sound(low: Word, range: Word, bottom: Word) {
    && 0 < range
    && low + range <= 0x1_0000_0000
    && (low + range == 0x1_0000_0000 ==> 0x100_0000 <= low)
    && (bottom == 0x8000 || (bottom == 0 && low == 0))
  }

  /** The distance from `low` up to the next multiple of `bottom`, a power of two; all ones when `bottom` is 0. */
  function ToBoundary(low: Word, bottom: Word): Word {
    if bottom == 0 then Minus(0, low) else Minus(0, low) % bottom
  }

  function NextRange(low: Word, range: Word, bottom: Word): Word {
    if TopsDiffer(low, range) then ToBoundary(low, bottom) else range
  }

  predicate Stops(low: Word, range: Word, bottom: Word) {
    TopsDiffer(low, range) && bottom <= range
  }

  /** The interval reaches up to 2^32; from then on it always will. */
  predicate AtEnd(low: Word, range: Word) {
    low + range == 0x1_0000_0000
  }

  /** One turn keeps the registers sound, and either the range grows or the interval reaches 2^32 for good. */
  lemma TurnSound(low: Word, range: Word, bottom: Word)
    requires Sound(low, range, bottom) && !Stops(low, range, bottom)
    ensures var l, r := Up(low), Up(NextRange(low, range, bottom));
            && Sound(l, r, bottom)
            && (AtEnd(low, range) ==> AtEnd(l, r))
            && (AtEnd(low, range) || !AtEnd(l, r) ==> range < r)
  {
    var top, rest := low / 0x100_0000, low % 0x100_0000;
    assert Up(low) == 256 * rest;
    if TopsDiffer(low, range) {
      assert bottom == 0x8000;
      BoundaryBelow(low, range);
    } else {
      assert rest + range < 0x100_0000;
    }
  }

  /** When a range under 2^15 crosses into the next top byte, the next multiple of 2^15 is that crossing. */
  lemma BoundaryBelow(low: Word, range: Word)
    requires Sound(low, range, 0x8000) && range < 0x8000
    requires low / 0x100_0000 != Plus(low, range) / 0x100_0000
    ensures var r := ToBoundary(low, 0x8000);
            0 < r <= range && low % 0x100_0000 + r == 0x100_0000 && (low + range == 0x1_0000_0000 ==> r == range)
  {
    var top, rest := low / 0x100_0000, low % 0x100_0000;
    assert low == 0x100_0000 * top + rest;
    assert 0x100_0000 <= rest + range;
    var k := 0x1_0000_0000 - low;
    assert k == 0x8000 * (0x200 * (0xFF - top)) + (0x100_0000 - rest);
    assert k % 0x8000 == 0x100_0000 - rest;
  }

  /** Every register moves up one byte, and a byte of input comes in. */
  function ShiftIn(d: Registers, input: seq<Byte>): Registers {
    Registers(Up(d.range), Push(d.code, ReadAt(input, d.pos)), Up(d.low), d.bottom, d.pos + 1)
  }

  function Turn(d: Registers, input: seq<Byte>): Registers {
    ShiftIn(d.(range := NextRange(d.low, d.range, d.bottom)), input)
  }

  predicate SoundRegisters(d: Registers) {
    Sound(d.low, d.range, d.bottom)
  }

  predicate Done(d: Registers) {
    Stops(d.low, d.range, d.bottom)
  }

  /** Turns left: first until the interval ends at 2^32 (which then stays), and until the range has grown. */
  function Renorm(d: Registers, input: seq<Byte>): (r: Registers)
    requires SoundRegisters(d)
    ensures SoundRegisters(r) && Done(r) && r.bottom == d.bottom
    decreases !AtEnd(d.low, d.range), 0x1_0000_0000 - d.range
  {
    if Done(d) then d
    else
      TurnSound(d.low, d.range, d.bottom);
      Renorm(Turn(d, input), input)
  }

  lemma RenormTurn(d: Registers, input: seq<Byte>)
    requires SoundRegisters(d) && !Done(d)
    ensures var t := Turn(d, input);
            && SoundRegisters(t)
            && Renorm(d, input) == Renorm(t, input)
            && (AtEnd(d.low, d.range) ==> AtEnd(t.low, t.range))
            && (AtEnd(d.low, d.range) || !AtEnd(t.low, t.range) ==> d.range < t.range)
  {
    TurnSound(d.low, d.range, d.bottom);
  }

  /** The range a decoding call starts from: never zero, and at least 2^15 (RAR) or 2^24 (7z). */
  lemma RenormRange(d: Registers, input: seq<Byte>)
    requires SoundRegisters(d)
    ensures var r := Renorm(d, input);
            r.low + r.range <= 0x1_0000_0000 && r.bottom <= r.range && (d.bottom == 0 ==> 0x100_0000 <= r.range)
  {
    var r := Renorm(d, input);
    if d.bottom == 0 {
      assert Plus(r.low, r.range) == r.range;
    }
  }

  // ---------- the calls a symbol decoder makes ----------

  function Threshold(d: Registers, total: nat): nat
    requires 0 < total <= d.range
  {
    Minus(d.code, d.low) / (d.range / total)
  }

  lemma QuotientPositive(range: nat, total: nat)
    requires 0 < total <= range
    ensures 0 < range / total <= range
  {
    var r := range / total;
    assert r * total <= range < (r + 1) * total;
    MulLe(1, total, r);
  }

  /** The registers after asking for a threshold. */
  function Divide(d: Registers, total: nat): Registers
    requires 0 < total <= d.range
  {
    d.(range := d.range / total)
  }

  /** `start + size` parts of the divided range stay inside what was there before the division. */
  predicate Fits(d: Registers, start: nat, size: nat) {
    && 0 < size
    && d.low + Times(start, d.range) + Times(size, d.range) <= 0x1_0000_0000
    && (d.low + Times(start, d.range) + Times(size, d.range) == 0x1_0000_0000 ==> 0x100_0000 <= d.low)
    && 0 < Times(size, d.range) < 0x1_0000_0000
  }

  function Times(n: nat, range: nat): nat {
    n * range
  }

  /** Any part of a total that passed GetThreshold fits. */
  lemma DividedFits(d: Registers, total: nat, start: nat, size: nat)
    requires SoundRegisters(d) && 0 < size && start + size <= total <= d.range
    ensures Fits(Divide(d, total), start, size)
  {
    PartBound(d.range, total, start, size);
    assert Times(start, d.range / total) == Part(d.range, total, start);
    assert Times(size, d.range / total) == Part(d.range, total, size);
  }

  /** 7z: the code is relative, so the part below the interval is subtracted from it. */
  function Skip7z(d: Registers, start: nat, size: nat): Registers {
    d.(code := Minus(d.code, U32(Times(start, d.range))), range := U32(Times(size, d.range)))
  }

  function After7z(d: Registers, start: nat, size: nat, input: seq<Byte>): (r: Registers)
    requires Fits(d, start, size) && d.low == 0 && d.bottom == 0
    ensures SoundRegisters(r) && r.low == 0 && r.bottom == 0 && 0x100_0000 <= r.range
  {
    Renorm7z(Skip7z(d, start, size), input);
    Renorm(Skip7z(d, start, size), input)
  }

  lemma {:induction false} Renorm7z(d: Registers, input: seq<Byte>)
    requires SoundRegisters(d) && d.low == 0 && d.bottom == 0
    ensures Renorm(d, input).low == 0 && 0x100_0000 <= Renorm(d, input).range
    decreases 0x1_0000_0000 - d.range
  {
    if Done(d) {
      assert Plus(d.low, d.range) == d.range;
    } else {
      TurnSound(d.low, d.range, d.bottom);
      Renorm7z(Turn(d, input), input);
    }
  }

  /** RAR: the code is absolute, so the low bound moves instead. */
  function SkipRar(d: Registers, start: nat, size: nat): Registers {
    d.(low := Plus(d.low, U32(Times(start, d.range))), range := U32(Times(size, d.range)))
  }

  lemma RarSound(d: Registers, start: nat, size: nat)
    requires Fits(d, start, size) && d.bottom == 0x8000
    ensures SoundRegisters(SkipRar(d, start, size))
  {
    hide Times;
    SmallWord(Times(start, d.range));
    SmallWord(Times(size, d.range));
    hide U32;
  }

  function AfterRar(d: Registers, start: nat, size: nat, input: seq<Byte>): (r: Registers)
    requires Fits(d, start, size) && d.bottom == 0x8000
    ensures SoundRegisters(r) && Done(r) && r.bottom == 0x8000
  {
    RarSound(d, start, size);
    Renorm(SkipRar(d, start, size), input)
  }

  lemma RarSkips(d: Registers, start: nat, size: nat, input: seq<Byte>)
    requires Fits(d, start, size) && d.bottom == 0x8000
    ensures SoundRegisters(SkipRar(d, start, size)) && AfterRar(d, start, size, input) == Renorm(SkipRar(d, start, size), input)
  {
    RarSound(d, start, size);
    hide Renorm;
  }

  function Bit7z(d: Registers, size0: nat): nat {
    if d.code < Bound(d.range, size0) then 0 else 1
  }

  function SkipBit7z(d: Registers, size0: nat): Registers
    requires 0 < size0 < 0x4000 <= d.range
  {
    BitBound(d.range, size0);
    var bound := Bound(d.range, size0);
    if d.code < bound then d.(range := bound) else d.(code := d.code - bound, range := d.range - bound)
  }

  function AfterBit7z(d: Registers, size0: nat, input: seq<Byte>): (r: Registers)
    requires SoundRegisters(d) && d.low == 0 && d.bottom == 0 && 0 < size0 < 0x4000 <= d.range
    ensures SoundRegisters(r) && r.low == 0 && r.bottom == 0 && 0x100_0000 <= r.range
  {
    BitBound(d.range, size0);
    var next := SkipBit7z(d, size0);
    Renorm7z(next, input);
    Renorm(next, input)
  }

  function BitRar(d: Registers, size0: nat): nat
    requires 0x4000 <= d.range
  {
    if Threshold(d, 0x4000) < size0 then 0 else 1
  }

  function AfterBitRar(d: Registers, size0: nat, input: seq<Byte>): (r: Registers)
    requires SoundRegisters(d) && d.bottom == 0x8000 && 0 < size0 < 0x4000 <= d.range
    ensures SoundRegisters(r) && Done(r) && r.bottom == 0x8000
  {
    DividedFits(d, 0x4000, 0, size0);
    DividedFits(d, 0x4000, size0, 0x4000 - size0);
    if BitRar(d, size0) == 0 then AfterRar(Divide(d, 0x4000), 0, size0, input)
    else AfterRar(Divide(d, 0x4000), size0, 0x4000 - size0, input)
  }

  // ---------- the code in the registers ----------

  /** The code lies in the interval of the registers. */
  predicate CodeIn(d: Registers) {
    d.low <= d.code < d.low + d.range
  }

  /** A bit of the RAR decoder is 0 if and only if the code lies in the lower share; the share it takes holds the code. */
  lemma BitRarIs(d: Registers, size0: nat)
    requires SoundRegisters(d) && d.bottom == 0x8000 && 0 < size0 < 0x4000 <= d.range && d.low <= d.code
    ensures BitRar(d, size0) == 0 <==> d.code - d.low < size0 * (d.range / 0x4000)
    ensures BitRar(d, size0) < 2
    ensures d.code - d.low < 0x4000 * (d.range / 0x4000) ==>
              var divided := Divide(d, 0x4000);
              CodeIn(if BitRar(d, size0) == 0 then SkipRar(divided, 0, size0)
                     else SkipRar(divided, size0, 0x4000 - size0))
  {
    var r, x := d.range / 0x4000, d.code - d.low;
    var q := Threshold(d, 0x4000);
    assert q == x / r;
    QuotientBetween(x, r);
    if q < size0 {
      MulLe(q + 1, size0, r);
    } else {
      MulLe(size0, q, r);
    }
    if x < 0x4000 * r {
      if 0x4000 <= q {
        MulLe(0x4000, q, r);
      }
      if q < size0 {
        ShareHolds(d, 0x4000, 0, size0);
      } else {
        ShareHolds(d, 0x4000, size0, 0x4000 - size0);
      }
    }
  }

  /** The share a threshold lies in holds the code. */
  lemma ShareHolds(d: Registers, total: nat, start: nat, size: nat)
    requires SoundRegisters(d) && d.bottom == 0x8000 && d.low <= d.code
    requires 0 < size && start + size <= total <= d.range && start <= Threshold(d, total) < start + size
    ensures CodeIn(SkipRar(Divide(d, total), start, size))
  {
    var r, x := d.range / total, d.code - d.low;
    var q := Threshold(d, total);
    QuotientBetween(x, r);
    DividedFits(d, total, start, size);
    ShareSizes(d, total, start, size);
    hide Threshold;
    hide Sound;
    hide Fits;
    MulLe(start, q, r);
    MulLe(q + 1, start + size, r);
    assert (start + size) * r == start * r + size * r;
  }

  lemma QuotientBetween(x: nat, r: nat)
    requires 0 < r
    ensures x / r * r <= x < (x / r + 1) * r
  {
  }

  lemma ShareSizes(d: Registers, total: nat, start: nat, size: nat)
    requires 0 < total <= d.range && Fits(Divide(d, total), start, size)
    ensures var e, r := SkipRar(Divide(d, total), start, size), d.range / total;
            e.low == d.low + start * r && e.range == size * r && e.code == d.code
  {
    var r := d.range / total;
    var below, width := Times(start, r), Times(size, r);
    SmallWord(below);
    SmallWord(width);
  }

  function FourDigits(b0: nat, b1: nat, b2: nat, b3: nat): nat {
    0x100_0000 * b0 + 0x1_0000 * b1 + 0x100 * b2 + b3
  }

  /** The registers after reading the first four bytes at `pos`. */
  function Opened(input: seq<Byte>, pos: nat, bottom: Word): Registers {
    var code := FourDigits(ReadAt(input, pos), ReadAt(input, pos + 1), ReadAt(input, pos + 2), ReadAt(input, pos + 3));
    Registers(0xFFFF_FFFF, code, 0, bottom, pos + 4)
  }

  /** After `i` bytes read from `start`, only a multiple of 256^i is left of the old code. */
  ghost predicate Filled(input: seq<Byte>, start: nat, i: nat, code: Word, q: nat) {
    var b0, b1, b2 := ReadAt(input, start), ReadAt(input, start + 1), ReadAt(input, start + 2);
    match i
    case 0 => code == q
    case 1 => code == 0x100 * q + b0
    case 2 => code == 0x1_0000 * q + 0x100 * b0 + b1
    case 3 => code == 0x100_0000 * q + 0x1_0000 * b0 + 0x100 * b1 + b2
    case _ => code == Opened(input, start, 0).code
  }

  /** A byte pushed into the code drives its top byte out. */
  lemma PushCut(code: Word, cut: nat, b: Byte)
    requires 0 <= code - 0x100_0000 * cut < 0x100_0000
    ensures Push(code, b) == 0x100 * (code - 0x100_0000 * cut) + b
  {
    assert code % 0x100_0000 == code - 0x100_0000 * cut;
  }

  lemma FillMore(input: seq<Byte>, start: nat, i: nat, code: Word, q: nat) returns (q': nat)
    requires i < 4 && Filled(input, start, i, code, q)
    ensures Filled(input, start, i + 1, Push(code, ReadAt(input, start + i)), q')
  {
    if i == 0 {
      q' := q % 0x100_0000;
      PushCut(code, q / 0x100_0000, ReadAt(input, start + i));
    } else if i == 1 {
      q' := q % 0x1_0000;
      PushCut(code, q / 0x1_0000, ReadAt(input, start + i));
    } else if i == 2 {
      q' := q % 0x100;
      PushCut(code, q / 0x100, ReadAt(input, start + i));
    } else {
      q' := 0;
      PushCut(code, q, ReadAt(input, start + i));
    }
  }

  class Decoder {
    const input: seq<Byte>
    var range: Word
    var code: Word
    var low: Word
    var bottom: Word
    var pos: nat

    ghost function Regs(): Registers
      reads this
    {
      Registers(range, code, low, bottom, pos)
    }

    ghost predicate Valid7z()
      reads this
    {
      SoundRegisters(Regs()) && low == 0 && bottom == 0 && 0x100_0000 <= range
    }

    ghost predicate ValidRar()
      reads this
    {
      SoundRegisters(Regs()) && bottom == 0x8000 && 0x8000 <= range
    }

    constructor (input: seq<Byte>)
      ensures this.input == input && pos == 0
    {
      this.input := input;
      range, code, low, bottom, pos := 0, 0, 0, 0, 0;
    }

    method Read() returns (b: Byte)
      modifies `pos
      ensures b == ReadAt(input, old(pos)) && pos == old(pos) + 1
    {
      b := if pos < |input| then input[pos] else 0;
      pos := pos + 1;
    }

    /** The old code is shifted out by the four bytes read. */
    method InitCommon() returns (ok: bool)
      modifies this
      ensures Regs() == Opened(input, old(pos), 0)
      ensures ok == (code < 0xFFFF_FFFF)
    {
      low, bottom := 0, 0;
      range := 0xFFFF_FFFF;
      ghost var start := pos;
      ghost var q: nat := code;
      for i := 0 to 4
        invariant pos == start + i
        invariant low == 0 && bottom == 0 && range == 0xFFFF_FFFF
        invariant Filled(input, start, i, code, q)
      {
        q := FillMore(input, start, i, code, q);
        var b := Read();
        code := Push(code, b);
      }
      ok := code < 0xFFFF_FFFF;
    }

    method Init7z() returns (ok: bool)
      modifies this
      ensures ok == (ReadAt(input, old(pos)) == 0 && Opened(input, old(pos) + 1, 0).code < 0xFFFF_FFFF)
      ensures ok ==> Valid7z() && Regs() == Opened(input, old(pos) + 1, 0)
    {
      var b := Read();
      if b != 0 {
        return false;
      }
      ok := InitCommon();
    }

    method InitRar() returns (ok: bool)
      modifies this
      ensures ok == (Opened(input, old(pos), 0).code < 0xFFFF_FFFF)
      ensures ok ==> ValidRar() && Regs() == Opened(input, old(pos), 0x8000)
    {
      ok := InitCommon();
      if !ok {
        return;
      }
      bottom := 0x8000;
    }

    method GetThreshold(total: nat) returns (count: nat)
      requires 0 < total <= range
      modifies `range
      ensures count == Threshold(old(Regs()), total) && Regs() == Divide(old(Regs()), total)
    {
      QuotientPositive(range, total);
      range := range / total;
      count := Minus(code, low) / range;
    }

    method ShiftInByte()
      modifies this
      ensures Regs() == ShiftIn(old(Regs()), input)
    {
      var b := Read();
      code := Push(code, b);
      range := Up(range);
      low := Up(low);
    }

    method Normalize()
      requires SoundRegisters(Regs())
      modifies this
      ensures Regs() == Renorm(old(Regs()), input)
    {
      while true
        invariant SoundRegisters(Regs()) && Renorm(Regs(), input) == Renorm(old(Regs()), input)
        decreases !AtEnd(low, range), 0x1_0000_0000 - range
      {
        ghost var d := Regs();
        var differ := TestTops(low, range);
        if differ {
          if range >= bottom {
            break;
          } else {
            range := ToBoundary(low, bottom);
          }
        }
        RenormTurn(d, input);
        ShiftInByte();
      }
    }

    method Decode7z(start: nat, size: nat)
      requires Fits(Regs(), start, size) && low == 0 && bottom == 0
      modifies this
      ensures Valid7z() && Regs() == After7z(old(Regs()), start, size, input)
    {
      code := Minus(code, U32(Times(start, range)));
      range := U32(Times(size, range));
      Renorm7z(Regs(), input);
      Normalize();
    }

    method DecodeRar(start: nat, size: nat)
      requires Fits(Regs(), start, size) && bottom == 0x8000
      modifies this
      ensures ValidRar() && Regs() == AfterRar(old(Regs()), start, size, input)
    {
      hide Renorm;
      hide Plus;
      hide U32;
      hide Times;
      hide SoundRegisters;
      ghost var d := Regs();
      RarSkips(d, start, size, input);
      low := Plus(low, U32(Times(start, range)));
      range := U32(Times(size, range));
      assert Regs() == SkipRar(d, start, size);
      Normalize();
    }

    method DecodeBit7z(size0: nat) returns (symbol: nat)
      requires Valid7z() && 0 < size0 < 0x4000
      modifies this
      ensures symbol == Bit7z(old(Regs()), size0)
      ensures Valid7z() && Regs() == AfterBit7z(old(Regs()), size0, input)
    {
      BitBound(range, size0);
      var newBound := U32(Bound(range, size0));
      if code < newBound {
        symbol := 0;
        range := newBound;
      } else {
        symbol := 1;
        code := code - newBound;
        range := range - newBound;
      }
      assert Regs() == SkipBit7z(old(Regs()), size0);
      Renorm7z(Regs(), input);
      Normalize();
    }

    method DecodeBitRar(size0: nat) returns (bit: nat)
      requires ValidRar() && 0 < size0 < 0x4000
      modifies this
      ensures bit == BitRar(old(Regs()), size0) && bit < 2
      ensures old(low) <= old(code) ==> (bit == 0 <==> old(code) - old(low) < size0 * (old(range) / 0x4000))
      ensures ValidRar() && Regs() == AfterBitRar(old(Regs()), size0, input)
    {
      DividedFits(Regs(), 0x4000, 0, size0);
      DividedFits(Regs(), 0x4000, size0, 0x4000 - size0);
      if low <= code {
        BitRarIs(Regs(), size0);
      }
      var value := GetThreshold(0x4000);
      if value < size0 {
        bit := 0;
        DecodeRar(0, size0);
      } else {
        bit := 1;
        DecodeRar(size0, 0x4000 - size0);
      }
    }
  }
}
