/** What the 7z encoder writes, the 7z decoder reads back: same intervals, same bits, and a zero code at the end. */
module RangeRoundTrip {
  import opened Words
  import opened RangeSpec
  import opened RangeDecoder

  /** The decoder stands at interval `iv` of the code: its own code is the distance from the interval's low end. */
  ghost predicate Tracks(code: seq<Byte>, iv: Interval, d: Registers) {
    && iv.shifts + 5 <= |code|
    && d.pos == iv.shifts + 5
    && d.range == iv.range
    && iv.low + d.code == Val(code[..d.pos])
    && d.low == 0 && d.bottom == 0
  }

  /** The leading digits of a code inside an interval lie in it as well. */
  lemma InsidePrefix(code: seq<Byte>, iv: Interval)
    requires Inside(code, iv)
    ensures iv.low <= Val(code[..iv.shifts + 5]) < iv.low + iv.range
  {
    var k := iv.shifts + 5;
    var v, p := Val(code[..k]), Pow256(|code| - k);
    ValPrefix(code, k);
    if iv.low + iv.range <= v {
      MulLe(iv.low + iv.range, v, p);
    }
    if v + 1 <= iv.low {
      MulLe(v + 1, iv.low, p);
    }
  }

  lemma TracksMeans(code: seq<Byte>, iv: Interval, d: Registers)
    requires Tracks(code, iv, d) && Inside(code, iv)
    ensures d.code < iv.range
  {
    InsidePrefix(code, iv);
  }

  lemma StopsAtTop(d: Registers)
    requires SoundRegisters(d) && d.low == 0 && d.bottom == 0
    ensures Done(d) <==> 0x100_0000 <= d.range
  {
    assert Plus(d.low, d.range) == d.range;
  }

  /** Both normalisations read on together. */
  lemma {:induction false} NormalizeTracks(code: seq<Byte>, iv: Interval, d: Registers)
    requires 0 < iv.range < 0x1_0000_0000 && Tracks(code, iv, d) && Inside(code, Normalize(iv))
    ensures SoundRegisters(d) && Tracks(code, Normalize(iv), Renorm(d, code))
    decreases 0x100_0000 - iv.range
  {
    StopsAtTop(d);
    NormalizeInside(code, iv);
    if iv.range < 0x100_0000 {
      var next := Interval(256 * iv.low, 256 * iv.range, iv.shifts + 1);
      NormalizeInside(code, next);
      assert next.shifts + 5 <= |code|;
      assert code[..d.pos + 1] == code[..d.pos] + [code[d.pos]];
      ValSnoc(code[..d.pos], code[d.pos]);
      TracksMeans(code, iv, d);
      SmallShift(d, code);
      RenormTurn(d, code);
      NormalizeTracks(code, next, Turn(d, code));
    }
  }

  lemma SmallShift(d: Registers, input: seq<Byte>)
    requires SoundRegisters(d) && d.low == 0 && d.bottom == 0 && d.code < d.range < 0x100_0000
    ensures Turn(d, input) == Registers(256 * d.range, 256 * d.code + ReadAt(input, d.pos), 0, 0, d.pos + 1)
  {
    assert Plus(d.low, d.range) == d.range;
    assert !TopsDiffer(d.low, d.range);
  }

  /** Dividing the code by the scaled range finds the interval that was coded. */
  lemma ThresholdInside(code: nat, r: nat, start: nat, size: nat)
    requires 0 < r && Times(start, r) <= code < Times(start, r) + Times(size, r)
    ensures start <= code / r < start + size
  {
    var q := code / r;
    assert q * r <= code < (q + 1) * r;
    if q < start {
      MulLe(q + 1, start, r);
    }
    if start + size <= q {
      MulLe(start + size, q, r);
    }
  }

  /** A symbol step: the threshold falls in the coded interval, and decoding it follows the encoder. */
  lemma SymbolTracks(code: seq<Byte>, iv: Interval, d: Registers, start: nat, size: nat, total: nat)
    requires ValidStep(Symbol(start, size, total)) && 0x100_0000 <= iv.range < 0x1_0000_0000
    requires Tracks(code, iv, d) && Inside(code, Take(iv, Symbol(start, size, total)))
    ensures SoundRegisters(d) && Fits(Divide(d, total), start, size)
    ensures start <= Threshold(d, total) < start + size
    ensures Tracks(code, Take(iv, Symbol(start, size, total)), After7z(Divide(d, total), start, size, code))
  {
    var s := Symbol(start, size, total);
    NarrowBounds(iv, s);
    var narrow := Narrow(iv, s);
    NormalizeInside(code, narrow);
    InsidePrefix(code, narrow);
    StopsAtTop(d);
    DividedFits(d, total, start, size);
    SkipTracks(code, iv, d, start, size, total);
    NormalizeTracks(code, narrow, Skip7z(Divide(d, total), start, size));
  }

  lemma PartIsTimes(range: nat, total: nat, n: nat)
    requires 0 < total
    ensures 0 <= range / total && Part(range, total, n) == Times(n, range / total)
  {
  }

  lemma ThresholdIn(d: Registers, total: nat, start: nat, size: nat)
    requires 0 < total <= d.range && d.low == 0 && 0 < d.range / total
    requires Times(start, d.range / total) <= d.code < Times(start, d.range / total) + Times(size, d.range / total)
    ensures start <= Threshold(d, total) < start + size
  {
    hide Times;
    ThresholdInside(d.code, d.range / total, start, size);
  }

  /** The decoder takes a share away as the encoder added it. */
  lemma ShareTaken(code: seq<Byte>, iv: Interval, next: Interval, d: Registers, e: Registers, start: nat, size: nat)
    requires Tracks(code, iv, d) && e == d.(range := e.range) && next.shifts == iv.shifts
    requires next.low == iv.low + Times(start, e.range) && next.range == Times(size, e.range) < 0x1_0000_0000
    requires next.low <= Val(code[..iv.shifts + 5]) < next.low + next.range
    ensures Times(start, e.range) <= d.code < Times(start, e.range) + Times(size, e.range)
    ensures Tracks(code, next, Skip7z(e, start, size))
  {
    hide Times;
    hide Val;
    var below := Times(start, e.range);
    assert iv.low + d.code == Val(code[..iv.shifts + 5]);
    SmallWord(below);
    SmallWord(next.range);
    hide U32;
  }

  lemma SkipTracks(code: seq<Byte>, iv: Interval, d: Registers, start: nat, size: nat, total: nat)
    requires ValidStep(Symbol(start, size, total)) && 0x100_0000 <= iv.range < 0x1_0000_0000
    requires Tracks(code, iv, d) && Inside(code, Narrow(iv, Symbol(start, size, total)))
    ensures start <= Threshold(d, total) < start + size
    ensures Tracks(code, Narrow(iv, Symbol(start, size, total)), Skip7z(Divide(d, total), start, size))
  {
    var next := Narrow(iv, Symbol(start, size, total));
    InsidePrefix(code, next);
    PartBound(d.range, total, start, size);
    PartIsTimes(d.range, total, start);
    PartIsTimes(d.range, total, size);
    hide Part;
    hide Times;
    hide Skip7z;
    hide Threshold;
    hide Inside;
    ShareTaken(code, iv, next, d, Divide(d, total), start, size);
    ThresholdIn(d, total, start, size);
  }

  lemma BitTracks(code: seq<Byte>, iv: Interval, d: Registers, size0: nat, bit: nat)
    requires ValidStep(Bit(size0, bit)) && 0x100_0000 <= iv.range < 0x1_0000_0000
    requires Tracks(code, iv, d) && Inside(code, Take(iv, Bit(size0, bit)))
    ensures SoundRegisters(d) && Bit7z(d, size0) == bit
    ensures Tracks(code, Take(iv, Bit(size0, bit)), AfterBit7z(d, size0, code))
  {
    var s := Bit(size0, bit);
    NarrowBounds(iv, s);
    var narrow := Narrow(iv, s);
    NormalizeInside(code, narrow);
    InsidePrefix(code, narrow);
    StopsAtTop(d);
    BitBound(d.range, size0);
    assert Tracks(code, narrow, SkipBit7z(d, size0));
    NormalizeTracks(code, narrow, SkipBit7z(d, size0));
  }

  /**
    The decoder, asked for the same totals and probabilities in order, finds every threshold inside the coded interval
    and every bit, and ends with code 0.
   */
  ghost predicate Mirrors(code: seq<Byte>, d: Registers, steps: seq<Step>)
    requires ValidSteps(steps)
    decreases |steps|
  {
    if steps == [] then d.code == 0
    else
      && SoundRegisters(d) && d.low == 0 && d.bottom == 0 && 0x100_0000 <= d.range
      && match steps[0]
         case Symbol(start, size, total) =>
           && start <= Threshold(d, total) < start + size
           && Fits(Divide(d, total), start, size)
           && Mirrors(code, After7z(Divide(d, total), start, size, code), steps[1..])
         case Bit(size0, bit) =>
           && Bit7z(d, size0) == bit
           && Mirrors(code, AfterBit7z(d, size0, code), steps[1..])
  }

  lemma {:induction false} RunMirrors(code: seq<Byte>, iv: Interval, d: Registers, steps: seq<Step>)
    requires ValidSteps(steps) && 0x100_0000 <= iv.range < 0x1_0000_0000
    requires Tracks(code, iv, d) && Inside(code, Run(iv, steps))
    requires |code| == Run(iv, steps).shifts + 5 && Val(code) == Run(iv, steps).low
    ensures Mirrors(code, d, steps)
    decreases |steps|
  {
    if steps == [] {
      assert code[..d.pos] == code;
    } else {
      var next := Take(iv, steps[0]);
      RunInside(code, next, steps[1..]);
      StopsAtTop(d);
      match steps[0]
      case Symbol(start, size, total) =>
        SymbolTracks(code, iv, d, start, size, total);
        RunMirrors(code, next, After7z(Divide(d, total), start, size, code), steps[1..]);
      case Bit(size0, bit) =>
        BitTracks(code, iv, d, size0, bit);
        RunMirrors(code, next, AfterBit7z(d, size0, code), steps[1..]);
    }
  }

  lemma FiveDigits(s: seq<Byte>)
    requires 5 <= |s|
    ensures Val(s[..5]) == 0x1_0000_0000 * (s[0] as int) + FourDigits(s[1], s[2], s[3], s[4])
  {
    DigitAt(s, 0);
    DigitAt(s, 1);
    DigitAt(s, 2);
    DigitAt(s, 3);
    DigitAt(s, 4);
  }

  lemma DigitAt(s: seq<Byte>, i: nat)
    requires i < |s|
    ensures Val(s[..i + 1]) == 256 * Val(s[..i]) + s[i]
  {
    assert s[..i + 1] == s[..i] + [s[i]];
    ValSnoc(s[..i], s[i]);
  }

  /** The whole round trip: any run of steps, flushed, opens and decodes to the same run. */
  lemma RoundTrip(steps: seq<Step>)
    requires ValidSteps(steps)
    ensures var code := Code(steps);
            && ReadAt(code, 0) == 0
            && Opened(code, 1, 0).code < 0xFFFF_FFFF
            && Mirrors(code, Opened(code, 1, 0), steps)
  {
    var code := Code(steps);
    CodeInside(steps);
    RunInside(code, START, steps);
    var d := Opened(code, 1, 0);
    FiveDigits(code);
    TracksMeans(code, START, d);
    RunMirrors(code, START, d, steps);
  }
}
