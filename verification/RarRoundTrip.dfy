/**
  The carryless interval on exact numbers, which the decoders of RAR and PPMd8 follow in 32 bits: a code inside the last
  interval of a run decodes to the run.
 */
module RarRoundTrip {
  import opened Options
  import opened Words
  import opened RangeSpec
  import opened RangeDecoder
  import opened Ppmd8RangeDecoder

  // ---------- exact intervals ----------

  /** The interval reaches over a multiple of 2^24, at which its first byte changes. */
  predicate Crosses(iv: Interval) {
    iv.low / 0x100_0000 != (iv.low + iv.range) / 0x100_0000
  }

  /** What is left of a narrow interval that crosses: the part up to the next multiple of 2^15. */
  function Trimmed(iv: Interval): nat {
    if Crosses(iv) then 0x8000 - iv.low % 0x8000 else iv.range
  }

  /** The interval lies in one block of 2^32. */
  predicate Fits32(iv: Interval) {
    iv.range < 0x1_0000_0000 && Sound(iv.low % 0x1_0000_0000, iv.range, 0x8000)
  }

  predicate Wide(iv: Interval) {
    Crosses(iv) && 0x8000 <= iv.range
  }

  function Shifted(iv: Interval): Interval {
    Interval(256 * iv.low, 256 * Trimmed(iv), iv.shifts + 1)
  }

  /** Below a block of 2^32, exact numbers and words tell the same. */
  lemma WordTells(iv: Interval)
    requires Fits32(iv)
    ensures var low := iv.low % 0x1_0000_0000;
            && (Crosses(iv) <==> TopsDiffer(low, iv.range)) && (Wide(iv) <==> Stops(low, iv.range, 0x8000))
  {
    var k, low := iv.low / 0x1_0000_0000, iv.low % 0x1_0000_0000;
    assert iv.low == 0x100 * k * 0x100_0000 + low;
    BlockTop(k, low);
    BlockTop(k, low + iv.range);
  }

  lemma BlockTop(k: nat, n: nat)
    ensures (0x100 * k * 0x100_0000 + n) / 0x100_0000 == 0x100 * k + n / 0x100_0000
  {
  }

  lemma LowInBlock(n: nat)
    ensures 256 * n % 0x1_0000_0000 == Up(n % 0x1_0000_0000)
    ensures n % 0x8000 == n % 0x1_0000_0000 % 0x100_0000 % 0x8000
  {
    var k, low := n / 0x1_0000_0000, n % 0x1_0000_0000;
    var top, rest := low / 0x100_0000, low % 0x100_0000;
    Remainder(256 * n, 0x100 * k + top, 256 * rest);
    LowBits(n, 0x200 * k + 2 * top, rest);
  }

  lemma Remainder(n: nat, k: nat, r: nat)
    requires n == 0x1_0000_0000 * k + r && r < 0x1_0000_0000
    ensures n % 0x1_0000_0000 == r
  {
  }

  lemma LowBits(n: nat, k: nat, rest: nat)
    requires n == 0x80_0000 * k + rest
    ensures n % 0x8000 == rest % 0x8000
  {
    var q, r := rest / 0x8000, rest % 0x8000;
    assert n == 0x8000 * (0x100 * k + q) + r;
  }

  /** The words trim where the numbers do. */
  lemma TrimTells(iv: Interval)
    requires Fits32(iv) && !Wide(iv)
    ensures Trimmed(iv) == NextRange(iv.low % 0x1_0000_0000, iv.range, 0x8000) < 0x100_0000
    ensures Trimmed(iv) <= iv.range
  {
    var low := iv.low % 0x1_0000_0000;
    WordTells(iv);
    LowInBlock(iv.low);
    if Crosses(iv) {
      BoundaryBelow(low, iv.range);
      BeforeBlock(low % 0x100_0000, ToBoundary(low, 0x8000));
    } else {
      assert low % 0x100_0000 + iv.range < 0x100_0000;
    }
  }

  lemma BeforeBlock(rest: nat, r: nat)
    requires rest + r == 0x100_0000 && 0 < r < 0x8000
    ensures rest % 0x8000 == 0x8000 - r
  {
    assert rest == 0x8000 * 511 + (0x8000 - r);
  }

  lemma ShiftedFits(iv: Interval)
    requires Fits32(iv) && !Wide(iv)
    ensures var low, now := iv.low % 0x1_0000_0000, Shifted(iv).low % 0x1_0000_0000;
            && Fits32(Shifted(iv)) && now == Up(low)
            && Shifted(iv).range == Up(NextRange(low, iv.range, 0x8000))
            && (AtEnd(low, iv.range) ==> AtEnd(now, Shifted(iv).range))
            && (AtEnd(low, iv.range) || !AtEnd(now, Shifted(iv).range) ==> iv.range < Shifted(iv).range)
  {
    hide Trimmed;
    hide NextRange;
    WordTells(iv);
    TrimTells(iv);
    LowInBlock(iv.low);
    TurnSound(iv.low % 0x1_0000_0000, iv.range, 0x8000);
  }

  /** Trimmed and shifted until wide. */
  function Settle(iv: Interval): (r: Interval)
    requires Fits32(iv)
    ensures Fits32(r) && Wide(r)
    decreases !AtEnd(iv.low % 0x1_0000_0000, iv.range), 0x1_0000_0000 - iv.range
  {
    if Wide(iv) then iv
    else
      ShiftedFits(iv);
      Settle(Shifted(iv))
  }

  // ---------- steps ----------

  /** Every step is a share of a total; a bit is one of two shares of 2^14. */
  function AsRequest(s: Step): Request {
    match s
    case Symbol(start, size, total) => Request(total, start, size)
    case Bit(size0, bit) => if bit == 0 then Request(0x4000, 0, size0) else Request(0x4000, size0, Less(0x4000, size0))
  }

  function Less(a: nat, b: nat): nat {
    if b <= a then a - b else 0
  }

  /** The range admits the total of the step. */
  predicate Admits(iv: Interval, s: Step) {
    && ValidRequest(AsRequest(s)) && AsRequest(s).total <= iv.range
    && (s.Bit? ==> 0 < s.size0 < 0x4000 && s.bit < 2)
  }

  function Cut(iv: Interval, s: Step): Interval
    requires Admits(iv, s)
  {
    var q := AsRequest(s);
    Interval(iv.low + q.start * (iv.range / q.total), q.size * (iv.range / q.total), iv.shifts)
  }

  /** A share of an interval is part of it. */
  lemma CutFits(iv: Interval, s: Step)
    requires Fits32(iv) && Admits(iv, s)
    ensures var c := Cut(iv, s);
            && Fits32(c) && iv.low <= c.low && c.low + c.range <= iv.low + iv.range
            && c.low % 0x1_0000_0000 == iv.low % 0x1_0000_0000 + (c.low - iv.low)
  {
    var q := AsRequest(s);
    PartBound(iv.range, q.total, q.start, q.size);
    InBlock(iv, Cut(iv, s));
  }

  lemma InBlock(iv: Interval, c: Interval)
    requires Fits32(iv) && 0 < c.range && iv.low <= c.low && c.low + c.range <= iv.low + iv.range
    ensures Fits32(c) && c.low % 0x1_0000_0000 == iv.low % 0x1_0000_0000 + (c.low - iv.low)
  {
    var k, low := iv.low / 0x1_0000_0000, iv.low % 0x1_0000_0000;
    Remainder(c.low, k, low + (c.low - iv.low));
  }

  /** The interval after a run, and whether every total on the way was admitted. */
  function RunRar(iv: Interval, steps: seq<Step>): Option<Interval>
    requires Fits32(iv)
    decreases |steps|
  {
    if steps == [] then Some(iv)
    else if !Admits(iv, steps[0]) then None
    else
      CutFits(iv, steps[0]);
      RunRar(Settle(Cut(iv, steps[0])), steps[1..])
  }

  // ---------- the code in the interval ----------

  /** The number the code writes lies in the interval, at its scale. */
  ghost predicate Holds(code: seq<Byte>, iv: Interval) {
    && iv.shifts + 4 <= |code|
    && var p := Pow256(|code| - iv.shifts - 4);
       iv.low * p <= Val(code) < (iv.low + iv.range) * p
  }

  lemma HoldsPrefix(code: seq<Byte>, iv: Interval)
    requires Holds(code, iv)
    ensures iv.low <= Val(code[..iv.shifts + 4]) < iv.low + iv.range
  {
    var k := iv.shifts + 4;
    var v, p := Val(code[..k]), Pow256(|code| - k);
    ValPrefix(code, k);
    if iv.low + iv.range <= v {
      MulLe(iv.low + iv.range, v, p);
    }
    if v + 1 <= iv.low {
      MulLe(v + 1, iv.low, p);
    }
  }

  lemma PartHolds(code: seq<Byte>, iv: Interval, c: Interval)
    requires Holds(code, c) && c.shifts == iv.shifts && iv.low <= c.low && c.low + c.range <= iv.low + iv.range
    ensures Holds(code, iv)
  {
    var p := Pow256(|code| - iv.shifts - 4);
    MulLe(iv.low, c.low, p);
    MulLe(c.low + c.range, iv.low + iv.range, p);
  }

  lemma ShiftedHolds(code: seq<Byte>, iv: Interval)
    requires Fits32(iv) && !Wide(iv) && Holds(code, Shifted(iv))
    ensures Holds(code, Interval(iv.low, Trimmed(iv), iv.shifts)) && Holds(code, iv)
  {
    TrimTells(iv);
    var c := Interval(iv.low, Trimmed(iv), iv.shifts);
    var p := Pow256(|code| - iv.shifts - 5);
    assert Pow256(|code| - iv.shifts - 4) == 256 * p;
    MulShift(c.low, p);
    MulShift(c.low + c.range, p);
    PartHolds(code, iv, c);
  }

  lemma {:induction false} SettleHolds(code: seq<Byte>, iv: Interval)
    requires Fits32(iv) && Holds(code, Settle(iv))
    ensures Holds(code, iv)
    decreases !AtEnd(iv.low % 0x1_0000_0000, iv.range), 0x1_0000_0000 - iv.range
  {
    if !Wide(iv) {
      ShiftedFits(iv);
      hide Holds;
      SettleHolds(code, Shifted(iv));
      ShiftedHolds(code, iv);
    }
  }

  lemma {:induction false} RunHolds(code: seq<Byte>, iv: Interval, steps: seq<Step>)
    requires Fits32(iv) && RunRar(iv, steps).Some? && Holds(code, RunRar(iv, steps).value)
    ensures Holds(code, iv)
    decreases |steps|
  {
    hide Holds;
    hide Settle;
    hide Cut;
    if steps != [] {
      CutFits(iv, steps[0]);
      var c := Cut(iv, steps[0]);
      RunHolds(code, Settle(c), steps[1..]);
      SettleHolds(code, c);
      CutInside(iv, steps[0]);
      PartHolds(code, iv, c);
    }
  }

  lemma CutInside(iv: Interval, s: Step)
    requires Admits(iv, s)
    ensures Cut(iv, s).shifts == iv.shifts
  {
  }

  // ---------- the decoder follows ----------

  /** The decoder stands at the interval: its code is the distance of the bytes read from the low end. */
  ghost predicate Follows(code: seq<Byte>, iv: Interval, d: Registers8) {
    && d.pos == iv.shifts + 4 <= |code|
    && d.range == iv.range && d.low == iv.low % 0x1_0000_0000
    && iv.low + d.code == Val(code[..d.pos])
  }

  lemma FollowsFits(code: seq<Byte>, iv: Interval, d: Registers8)
    requires Fits32(iv) && Follows(code, iv, d)
    ensures Sound8(d) && (Wide(iv) <==> Done8(d))
  {
    WordTells(iv);
  }

  /** A turn on a code of three bytes. */
  lemma TurnIs(iv: Interval, d: Registers8, input: seq<Byte>)
    requires Fits32(iv) && !Wide(iv) && d.range == iv.range && d.low == iv.low % 0x1_0000_0000 && d.code < 0x100_0000
    ensures var t := Turn8(d, input);
            && t.range == Shifted(iv).range && t.low == Shifted(iv).low % 0x1_0000_0000
            && t.code == 256 * d.code + ReadAt(input, d.pos) && t.pos == d.pos + 1
  {
    hide NextRange;
    ShiftedFits(iv);
  }

  lemma NextDigit(code: seq<Byte>, k: nat)
    requires k < |code|
    ensures Val(code[..k + 1]) == 256 * Val(code[..k]) + ReadAt(code, k)
  {
    assert code[..k + 1] == code[..k] + [code[k]];
    ValSnoc(code[..k], code[k]);
  }

  lemma TurnFollows(code: seq<Byte>, iv: Interval, d: Registers8)
    requires Fits32(iv) && !Wide(iv) && Follows(code, iv, d) && Holds(code, Shifted(iv))
    ensures Follows(code, Shifted(iv), Turn8(d, code))
  {
    ShiftedHolds(code, iv);
    HoldsPrefix(code, Interval(iv.low, Trimmed(iv), iv.shifts));
    TrimTells(iv);
    assert d.pos < |code|;
    hide Holds;
    hide Val;
    TurnIs(iv, d, code);
    hide Turn8;
    hide Fits32;
    hide Trimmed;
    NextDigit(code, d.pos);
  }

  lemma {:induction false} SettleFollows(code: seq<Byte>, iv: Interval, d: Registers8)
    requires Fits32(iv) && Follows(code, iv, d) && Holds(code, Settle(iv))
    ensures Sound8(d) && Follows(code, Settle(iv), Renorm8(d, code))
    decreases !AtEnd(iv.low % 0x1_0000_0000, iv.range), 0x1_0000_0000 - iv.range
  {
    FollowsFits(code, iv, d);
    if !Wide(iv) {
      ShiftedFits(iv);
      hide Holds;
      hide Follows;
      SettleHolds(code, Shifted(iv));
      TurnFollows(code, iv, d);
      TurnSound(d.low, d.range, 0x8000);
      SettleFollows(code, Shifted(iv), Turn8(d, code));
    }
  }

  /** A code inside a share has its threshold inside it, and stays inside when the share is taken. */
  lemma CutFollows(code: seq<Byte>, iv: Interval, d: Registers8, s: Step)
    requires Fits32(iv) && Admits(iv, s) && Follows(code, iv, d) && Holds(code, Cut(iv, s))
    ensures var q := AsRequest(s);
            && q.start <= Threshold8(d, q.total) < q.start + q.size
            && Follows(code, Cut(iv, s), Skip8(d.(range := d.range / q.total), q.start, q.size))
  {
    var q, c := AsRequest(s), Cut(iv, s);
    var r := iv.range / q.total;
    PartBound(iv.range, q.total, q.start, q.size);
    CutFits(iv, s);
    HoldsPrefix(code, c);
    ShareInside(d.code, r, q.start, q.size);
    ShareSkipped(code, iv, d, c, q.start, q.size, r);
  }

  lemma ShareInside(code: nat, r: nat, start: nat, size: nat)
    requires 0 < r && start * r <= code < start * r + size * r
    ensures start <= code / r < start + size
  {
    var q := code / r;
    assert q * r <= code < (q + 1) * r;
    if q < start {
      MulLe(q + 1, start, r);
    }
    if start + size <= q {
      MulLe(start + size, q, r);
    }
  }

  lemma ShareSkipped(code: seq<Byte>, iv: Interval, d: Registers8, c: Interval, start: nat, size: nat, r: Word)
    requires Fits32(c) && Follows(code, iv, d) && c == Interval(iv.low + start * r, size * r, iv.shifts)
    requires c.low <= Val(code[..iv.shifts + 4]) && c.low % 0x1_0000_0000 == d.low + start * r
    ensures Follows(code, c, Skip8(d.(range := r), start, size))
  {
    var below := Times(start, r);
    assert below == start * r && Times(size, r) == size * r;
    SmallWord(below);
    SmallWord(size * r);
  }

  // ---------- whole runs ----------

  /** The PPMd8 decoder, asked in order, finds every threshold in the share that was coded. */
  ghost predicate Mirrors8(code: seq<Byte>, d: Registers8, steps: seq<Step>)
    decreases |steps|
  {
    steps == [] || (
      var q := AsRequest(steps[0]);
      && Sound8(d) && ValidRequest(q) && q.total <= d.range
      && q.start <= Threshold8(d, q.total) < q.start + q.size
      && var skipped := Skip8(d.(range := d.range / q.total), q.start, q.size);
         Sound8(skipped) && Mirrors8(code, Renorm8(skipped, code), steps[1..]))
  }

  /** The RAR decoder finds every threshold in the share that was coded, and every bit as it was. */
  ghost predicate MirrorsRar(code: seq<Byte>, d: Registers, steps: seq<Step>)
    decreases |steps|
  {
    steps == [] || (
      && SoundRegisters(d) && d.bottom == 0x8000 <= d.range
      && match steps[0]
         case Symbol(start, size, total) =>
           && 0 < total <= d.range && Fits(Divide(d, total), start, size)
           && start <= Threshold(d, total) < start + size
           && MirrorsRar(code, AfterRar(Divide(d, total), start, size, code), steps[1..])
         case Bit(size0, bit) =>
           && 0 < size0 < 0x4000 && BitRar(d, size0) == bit
           && MirrorsRar(code, AfterBitRar(d, size0, code), steps[1..]))
  }

  /** One step of both: the code stays inside, and the decoder behind it. */
  lemma StepFollows(code: seq<Byte>, iv: Interval, d: Registers8, s: Step)
    requires Fits32(iv) && Admits(iv, s) && Follows(code, iv, d)
    requires Fits32(Cut(iv, s)) && Holds(code, Settle(Cut(iv, s)))
    ensures var q := AsRequest(s);
            var skipped := Skip8(d.(range := d.range / q.total), q.start, q.size);
            && Sound8(d) && Sound8(skipped) && q.start <= Threshold8(d, q.total) < q.start + q.size
            && Follows(code, Settle(Cut(iv, s)), Renorm8(skipped, code))
  {
    hide Holds;
    hide Cut;
    hide Settle;
    hide Fits32;
    hide Threshold8;
    hide Skip8;
    hide Renorm8;
    RangeFollows(code, iv, d);
    FollowsFits(code, iv, d);
    SettleHolds(code, Cut(iv, s));
    CutFollows(code, iv, d, s);
    hide Follows;
    hide Sound8;
    var q := AsRequest(s);
    SettleFollows(code, Cut(iv, s), Skip8(d.(range := d.range / q.total), q.start, q.size));
  }

  lemma {:induction false} RunMirrors8(code: seq<Byte>, iv: Interval, d: Registers8, steps: seq<Step>)
    requires Fits32(iv) && RunRar(iv, steps).Some? && Holds(code, RunRar(iv, steps).value) && Follows(code, iv, d)
    ensures Mirrors8(code, d, steps)
    decreases |steps|
  {
    hide Holds;
    hide Settle;
    hide Cut;
    hide Renorm8;
    hide Skip8;
    if steps != [] {
      CutFits(iv, steps[0]);
      var next := Settle(Cut(iv, steps[0]));
      RunHolds(code, next, steps[1..]);
      StepFollows(code, iv, d, steps[0]);
      RangeFollows(code, iv, d);
      hide Follows;
      var q := AsRequest(steps[0]);
      var skipped := Skip8(d.(range := d.range / q.total), q.start, q.size);
      RunMirrors8(code, next, Renorm8(skipped, code), steps[1..]);
    }
  }

  lemma RangeFollows(code: seq<Byte>, iv: Interval, d: Registers8)
    requires Follows(code, iv, d)
    ensures d.range == iv.range
  {
  }

  /** What the PPMd8 decoder finds, the RAR decoder finds. */
  lemma {:induction false} MirrorsAgree(code: seq<Byte>, d: Registers, steps: seq<Step>)
    requires SoundRegisters(d) && d.bottom == 0x8000 <= d.range && Mirrors8(code, Relative(d), steps)
    requires forall i :: 0 <= i < |steps| && steps[i].Bit? ==> 0 < steps[i].size0 < 0x4000 && steps[i].bit < 2
    ensures MirrorsRar(code, d, steps)
    decreases |steps|
  {
    hide Renorm8;
    hide AfterRar;
    hide Skip8;
    hide Sound8;
    hide Fits;
    hide Threshold8;
    hide Threshold;
    if steps != [] {
      var q := AsRequest(steps[0]);
      RequestAgrees(d, q, code);
      var next := AfterRar(Divide(d, q.total), q.start, q.size, code);
      MirrorsAgree(code, next, steps[1..]);
      if steps[0].Bit? {
        BitAgrees(d, steps[0].size0, steps[0].bit, code);
      }
    }
  }

  lemma BitAgrees(d: Registers, size0: nat, bit: nat, code: seq<Byte>)
    requires SoundRegisters(d) && d.bottom == 0x8000 && 0 < size0 < 0x4000 <= d.range && bit < 2
    requires var q := AsRequest(Bit(size0, bit)); q.start <= Threshold(d, 0x4000) < q.start + q.size
    ensures BitRar(d, size0) == bit
    ensures var q := AsRequest(Bit(size0, bit));
            && Fits(Divide(d, 0x4000), q.start, q.size)
            && AfterBitRar(d, size0, code) == AfterRar(Divide(d, 0x4000), q.start, q.size, code)
  {
    hide AfterRar;
    hide Fits;
    hide Threshold;
    DividedFits(d, 0x4000, 0, size0);
    DividedFits(d, 0x4000, size0, 0x4000 - size0);
  }

  lemma StartFollows(code: seq<Byte>)
    requires Holds(code, START)
    ensures Fits32(START) && Opened(code, 0, 0x8000).code < 0xFFFF_FFFF
    ensures Follows(code, START, Relative(Opened(code, 0, 0x8000)))
  {
    HoldsPrefix(code, START);
    FourBytes(code);
  }

  lemma FourBytes(s: seq<Byte>)
    requires 4 <= |s|
    ensures Val(s[..4]) == FourDigits(s[0], s[1], s[2], s[3])
  {
    assert s[..1] == [] + [s[0]] && s[..2] == s[..1] + [s[1]] && s[..3] == s[..2] + [s[2]] && s[..4] == s[..3] + [s[3]];
    ValSnoc([], s[0]);
    ValSnoc(s[..1], s[1]);
    ValSnoc(s[..2], s[2]);
    ValSnoc(s[..3], s[3]);
  }

  /**
    For every run of symbols and bits whose totals the range admits, and every code inside its last interval: both
    decoders open, every threshold lies in the share that was coded, and every bit is the one that was coded.
   */
  lemma RoundTrip(code: seq<Byte>, steps: seq<Step>)
    requires Fits32(START) && RunRar(START, steps).Some? && Holds(code, RunRar(START, steps).value)
    ensures var d := Opened(code, 0, 0x8000);
            d.code < 0xFFFF_FFFF && MirrorsRar(code, d, steps) && Mirrors8(code, Relative(d), steps)
  {
    hide Holds;
    hide Opened;
    RunHolds(code, START, steps);
    StartFollows(code);
    StartSound(code);
    var d := Opened(code, 0, 0x8000);
    RunMirrors8(code, START, Relative(d), steps);
    RunBits(START, steps);
    MirrorsAgree(code, d, steps);
  }

  lemma StartSound(code: seq<Byte>)
    ensures var d := Opened(code, 0, 0x8000); SoundRegisters(d) && d.bottom == 0x8000 <= d.range
  {
  }

  lemma {:induction false} RunBits(iv: Interval, steps: seq<Step>)
    requires Fits32(iv) && RunRar(iv, steps).Some?
    ensures forall i :: 0 <= i < |steps| && steps[i].Bit? ==> 0 < steps[i].size0 < 0x4000 && steps[i].bit < 2
    decreases |steps|
  {
    hide Settle;
    hide Cut;
    if steps != [] {
      CutFits(iv, steps[0]);
      RunBits(Settle(Cut(iv, steps[0])), steps[1..]);
      forall i | 0 < i < |steps| && steps[i].Bit? ensures 0 < steps[i].size0 < 0x4000 && steps[i].bit < 2 {
        assert steps[i] == steps[1..][i - 1];
      }
    }
  }

  /** There is always such a code: the digits of the low end. */
  lemma LowHolds(iv: Interval)
    requires 0 < iv.range && iv.low + iv.range <= 0x1_0000_0000 * Pow256(iv.shifts)
    ensures Holds(BigEndian(iv.low, iv.shifts + 4), iv)
  {
    Pow256Sum(4, iv.shifts);
    assert Pow256(4) == 0x1_0000_0000 by {
      assert Pow256(2) == 0x1_0000;
    }
    BigEndianVal(iv.low, iv.shifts + 4);
    assert Pow256(0) == 1;
  }

  /** Runs stay below 2^32 at every scale. */
  lemma {:induction false} RunBelow32(iv: Interval, steps: seq<Step>)
    requires Fits32(iv) && RunRar(iv, steps).Some? && iv.low + iv.range <= 0x1_0000_0000 * Pow256(iv.shifts)
    ensures var r := RunRar(iv, steps).value; Fits32(r) && r.low + r.range <= 0x1_0000_0000 * Pow256(r.shifts)
    decreases |steps|
  {
    hide Settle;
    hide Cut;
    if steps != [] {
      CutFits(iv, steps[0]);
      CutInside(iv, steps[0]);
      var c := Cut(iv, steps[0]);
      SettleBelow32(c);
      RunBelow32(Settle(c), steps[1..]);
    }
  }

  lemma {:induction false} SettleBelow32(iv: Interval)
    requires Fits32(iv) && iv.low + iv.range <= 0x1_0000_0000 * Pow256(iv.shifts)
    ensures var r := Settle(iv); r.low + r.range <= 0x1_0000_0000 * Pow256(r.shifts)
    decreases !AtEnd(iv.low % 0x1_0000_0000, iv.range), 0x1_0000_0000 - iv.range
  {
    if !Wide(iv) {
      ShiftedFits(iv);
      TrimTells(iv);
      SettleBelow32(Shifted(iv));
    }
  }

  /** Totals up to 2^15 are admitted all the way. */
  lemma {:induction false} AllAdmitted(iv: Interval, steps: seq<Step>)
    requires Fits32(iv) && 0x8000 <= iv.range
    requires forall i :: 0 <= i < |steps| ==> ValidStep(steps[i]) && AsRequest(steps[i]).total <= 0x8000
    ensures RunRar(iv, steps).Some?
    decreases |steps|
  {
    hide Cut;
    if steps != [] {
      CutFits(iv, steps[0]);
      AllAdmitted(Settle(Cut(iv, steps[0])), steps[1..]);
    }
  }

  /** A code for any run whose totals stay below 2^15, from which the run comes back. */
  lemma RunReturns(steps: seq<Step>) returns (code: seq<Byte>)
    requires forall i :: 0 <= i < |steps| ==> ValidStep(steps[i]) && AsRequest(steps[i]).total <= 0x8000
    ensures var d := Opened(code, 0, 0x8000);
            d.code < 0xFFFF_FFFF && MirrorsRar(code, d, steps) && Mirrors8(code, Relative(d), steps)
  {
    hide Settle;
    hide Holds;
    assert Fits32(START);
    AllAdmitted(START, steps);
    assert Pow256(0) == 1;
    RunBelow32(START, steps);
    var iv := RunRar(START, steps).value;
    code := BigEndian(iv.low, iv.shifts + 4);
    LowHolds(iv);
    RoundTrip(code, steps);
  }
}
