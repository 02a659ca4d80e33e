/**
  The 7z range coder on exact numbers: an interval that only ever shrinks, with no carry and no word size.
  The encoder and the decoder are both measured against it.
 */
module RangeSpec {
  import opened Words

  /** One coding step: an interval of a frequency total, or a bit with a probability out of 2^14. */
  datatype Step =
    | Symbol(start: nat, size: nat, total: nat)
    | Bit(size0: nat, bit: nat)

  /** What the callers of the coder guarantee. */
  predicate ValidStep(s: Step) {
    match s
    case Symbol(start, size, total) => 0 < size && start + size <= total <= 0x100_0000
    case Bit(size0, bit) => 0 < size0 < 0x4000 && bit < 2
  }

  predicate ValidSteps(steps: seq<Step>) {
    forall i :: 0 <= i < |steps| ==> ValidStep(steps[i])
  }

  /** `low` is the exact sum of all increments, in units of 256^-(shifts+5) of the whole code. */
  datatype Interval = Interval(low: nat, range: nat, shifts: nat)

  const START: Interval := Interval(0, 0x1_0000_0000 - 1, 0)

  /** The part of the range given to `n` out of `total`. */
  function Part(range: nat, total: nat, n: nat): nat
    requires 0 < total
  {
    n * (range / total)
  }

  /** The part of the range given to a zero bit. */
  function Bound(range: nat, size0: nat): nat {
    range / 0x4000 * size0
  }

  function Narrow(iv: Interval, s: Step): Interval
    requires ValidStep(s)
  {
    match s
    case Symbol(start, size, total) =>
      Interval(iv.low + Part(iv.range, total, start), Part(iv.range, total, size), iv.shifts)
    case Bit(size0, bit) =>
      var bound := Bound(iv.range, size0);
      if bit == 0 then Interval(iv.low, bound, iv.shifts)
      else Interval(iv.low + bound, if bound <= iv.range then iv.range - bound else 0, iv.shifts)
  }

  /** Scale by 256 until the range has its top byte back. */
  function Normalize(iv: Interval): (r: Interval)
    requires 0 < iv.range
    ensures 0x100_0000 <= r.range && (iv.range < 0x1_0000_0000 ==> r.range < 0x1_0000_0000)
    decreases 0x100_0000 - iv.range
  {
    if iv.range < 0x100_0000 then Normalize(Interval(256 * iv.low, 256 * iv.range, iv.shifts + 1)) else iv
  }

  function Take(iv: Interval, s: Step): (r: Interval)
    requires ValidStep(s) && 0x100_0000 <= iv.range < 0x1_0000_0000
    ensures 0x100_0000 <= r.range < 0x1_0000_0000
  {
    NarrowBounds(iv, s);
    Normalize(Narrow(iv, s))
  }

  function Run(iv: Interval, steps: seq<Step>): (r: Interval)
    requires ValidSteps(steps) && 0x100_0000 <= iv.range < 0x1_0000_0000
    ensures 0x100_0000 <= r.range < 0x1_0000_0000
    decreases |steps|
  {
    if steps == [] then iv else Run(Take(iv, steps[0]), steps[1..])
  }

  lemma RunOn(iv: Interval, step: Step, rest: seq<Step>)
    requires ValidStep(step) && ValidSteps(rest) && 0x100_0000 <= iv.range < 0x1_0000_0000
    ensures ValidSteps([step] + rest) && Run(iv, [step] + rest) == Run(Take(iv, step), rest)
  {
    assert ([step] + rest)[1..] == rest;
  }

  lemma RunOne(iv: Interval, step: Step)
    requires ValidStep(step) && 0x100_0000 <= iv.range < 0x1_0000_0000
    ensures ValidSteps([step]) && Run(iv, [step]) == Take(iv, step)
  {
    assert [step][1..] == [];
  }

  /** Dividing by the total and multiplying by part of it stays inside. */
  lemma PartBound(range: nat, total: nat, start: nat, size: nat)
    requires 0 < size && start + size <= total <= range
    ensures 0 < range / total
    ensures 0 < Part(range, total, size)
    ensures Part(range, total, start) + Part(range, total, size) <= range
  {
    var r := range / total;
    assert r * total <= range;
    assert range < (r + 1) * total;
    assert (start + size) * r <= total * r;
    assert (start + size) * r == start * r + size * r;
    MulLe(1, size, r);
  }

  lemma BitBound(range: nat, size0: nat)
    requires 0 < size0 < 0x4000 <= range
    ensures 0 < Bound(range, size0) < range
  {
    PartBound(range, 0x4000, 0, size0);
    PartBound(range, 0x4000, size0, 0x4000 - size0);
  }

  /** A step never leaves the interval and never empties it. */
  lemma NarrowBounds(iv: Interval, s: Step)
    requires ValidStep(s) && 0x100_0000 <= iv.range
    ensures var n := Narrow(iv, s);
            0 < n.range && iv.low <= n.low && n.low + n.range <= iv.low + iv.range && n.shifts == iv.shifts
  {
    match s
    case Symbol(start, size, total) =>
      PartBound(iv.range, total, start, size);
    case Bit(size0, bit) =>
      BitBound(iv.range, size0);
  }

  /** The code written by `code` lies in the interval, at the interval's scale. */
  ghost predicate Inside(code: seq<Byte>, iv: Interval) {
    && iv.shifts + 5 <= |code|
    && var p := Pow256(|code| - iv.shifts - 5);
       iv.low * p <= Val(code) < (iv.low + iv.range) * p
  }

  lemma {:induction false} NormalizeInside(code: seq<Byte>, iv: Interval)
    requires 0 < iv.range && Inside(code, Normalize(iv))
    ensures Inside(code, iv)
    decreases 0x100_0000 - iv.range
  {
    if iv.range < 0x100_0000 {
      NormalizeInside(code, Interval(256 * iv.low, 256 * iv.range, iv.shifts + 1));
      var p := Pow256(|code| - iv.shifts - 6);
      assert Pow256(|code| - iv.shifts - 5) == 256 * p;
      MulShift(iv.low, p);
      MulShift(iv.low + iv.range, p);
    }
  }

  lemma NarrowInside(code: seq<Byte>, iv: Interval, s: Step)
    requires ValidStep(s) && 0x100_0000 <= iv.range && Inside(code, Narrow(iv, s))
    ensures Inside(code, iv)
  {
    NarrowBounds(iv, s);
    var n, p := Narrow(iv, s), Pow256(|code| - iv.shifts - 5);
    MulLe(iv.low, n.low, p);
    MulLe(n.low + n.range, iv.low + iv.range, p);
  }

  /** Intervals are nested: a code inside the last one is inside every earlier one. */
  lemma {:induction false} RunInside(code: seq<Byte>, iv: Interval, steps: seq<Step>)
    requires ValidSteps(steps) && 0x100_0000 <= iv.range < 0x1_0000_0000 && Inside(code, Run(iv, steps))
    ensures Inside(code, iv)
    decreases |steps|
  {
    if steps == [] {
    } else {
      RunInside(code, Take(iv, steps[0]), steps[1..]);
      NarrowBounds(iv, steps[0]);
      NormalizeInside(code, Narrow(iv, steps[0]));
      NarrowInside(code, iv, steps[0]);
    }
  }

  lemma {:induction false} RunAppend(iv: Interval, a: seq<Step>, b: seq<Step>)
    requires ValidSteps(a) && ValidSteps(b) && 0x100_0000 <= iv.range < 0x1_0000_0000
    ensures ValidSteps(a + b) && Run(iv, a + b) == Run(Run(iv, a), b)
    decreases |a|
  {
    if a == [] {
      assert a + b == b;
    } else {
      RunAppend(Take(iv, a[0]), a[1..], b);
      assert (a + b)[1..] == a[1..] + b;
    }
  }

  /** The interval stays below 2^32-1 at every scale, so the leading digit of the code is always zero. */
  ghost predicate Below(iv: Interval) {
    iv.low + iv.range <= (0x1_0000_0000 - 1) * Pow256(iv.shifts)
  }

  lemma {:induction false} NormalizeBelow(iv: Interval)
    requires 0 < iv.range && Below(iv)
    ensures Below(Normalize(iv))
    decreases 0x100_0000 - iv.range
  {
    if iv.range < 0x100_0000 {
      MulShift(0x1_0000_0000 - 1, Pow256(iv.shifts));
      NormalizeBelow(Interval(256 * iv.low, 256 * iv.range, iv.shifts + 1));
    }
  }

  lemma TakeBelow(iv: Interval, s: Step)
    requires ValidStep(s) && 0x100_0000 <= iv.range < 0x1_0000_0000 && Below(iv)
    ensures Below(Take(iv, s))
  {
    NarrowBounds(iv, s);
    NormalizeBelow(Narrow(iv, s));
  }

  lemma {:induction false} RunBelow(iv: Interval, steps: seq<Step>)
    requires ValidSteps(steps) && 0x100_0000 <= iv.range < 0x1_0000_0000 && Below(iv)
    ensures Below(Run(iv, steps))
    decreases |steps|
  {
    if steps == [] {
    } else {
      TakeBelow(iv, steps[0]);
      RunBelow(Take(iv, steps[0]), steps[1..]);
    }
  }

  /** The bytes of a finished code: the exact sum, in shifts + 5 digits. */
  function Code(steps: seq<Step>): seq<Byte>
    requires ValidSteps(steps)
  {
    var iv := Run(START, steps);
    BigEndian(iv.low, iv.shifts + 5)
  }

  /** A number below 2^32 * 256^m, written in m + 5 digits, reads back and starts with a zero. */
  lemma LeadingZero(v: nat, m: nat)
    requires v < 0x1_0000_0000 * Pow256(m)
    ensures Val(BigEndian(v, m + 5)) == v && BigEndian(v, m + 5)[0] == 0
  {
    var code, p := BigEndian(v, m + 5), Pow256(m + 4);
    Pow256Sum(4, m);
    assert Pow256(4) == 0x1_0000_0000 by {
      assert Pow256(2) == 0x1_0000;
    }
    assert v < p;
    assert Pow256(m + 5) == 256 * p;
    BigEndianVal(v, m + 5);
    ValPrefix(code, 1);
    assert [] + [code[0]] == code[..1];
    ValSnoc([], code[0]);
    if code[0] > 0 {
      MulLe(1, code[0], p);
    }
  }

  /** The code of any run is in its final interval, and starts with a zero byte. */
  lemma CodeInside(steps: seq<Step>)
    requires ValidSteps(steps)
    ensures Val(Code(steps)) == Run(START, steps).low
    ensures Inside(Code(steps), Run(START, steps))
    ensures Code(steps)[0] == 0
  {
    assert Below(START);
    RunBelow(START, steps);
    var iv := Run(START, steps);
    MulLe(0x1_0000_0000 - 1, 0x1_0000_0000, Pow256(iv.shifts));
    LeadingZero(iv.low, iv.shifts);
    assert Pow256(|Code(steps)| - iv.shifts - 5) == 1;
  }
}
