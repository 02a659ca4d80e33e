/**
  The carryless range decoder of PPMd8, whose code is relative to `low`, and its agreement with the RAR decoder of
  PPMd7, whose code is absolute.
 */
module Ppmd8RangeDecoder {
  import opened Words
  import opened RangeSpec
  import opened RangeDecoder

  datatype Registers8 = Registers8(range: Word, code: Word, low: Word, pos: nat)

  predicate Sound8(d: Registers8) {
    Sound(d.low, d.range, 0x8000)
  }

  predicate Done8(d: Registers8) {
    Stops(d.low, d.range, 0x8000)
  }

  /** One turn of the loop; the reset of the range happens inside the loop's condition. */
  function Turn8(d: Registers8, input: seq<Byte>): Registers8 {
    Registers8(Up(NextRange(d.low, d.range, 0x8000)), Push(d.code, ReadAt(input, d.pos)), Up(d.low),
               d.pos + 1)
  }

  function Renorm8(d: Registers8, input: seq<Byte>): (r: Registers8)
    requires Sound8(d)
    ensures Sound8(r) && 0x8000 <= r.range
    decreases !AtEnd(d.low, d.range), 0x1_0000_0000 - d.range
  {
    if Done8(d) then d
    else
      TurnSound(d.low, d.range, 0x8000);
      Renorm8(Turn8(d, input), input)
  }

  function Threshold8(d: Registers8, total: nat): nat
    requires 0 < total <= d.range
  {
    d.code / (d.range / total)
  }

  function Skip8(d: Registers8, start: nat, size: nat): Registers8 {
    var skipped := U32(Times(start, d.range));
    d.(low := Plus(d.low, skipped), code := Minus(d.code, skipped), range := U32(Times(size, d.range)))
  }

  class Decoder8 {
    const input: seq<Byte>
    var range: Word
    var code: Word
    var low: Word
    var pos: nat

    ghost function Regs(): Registers8
      reads this
    {
      Registers8(range, code, low, pos)
    }

    ghost predicate Valid()
      reads this
    {
      Sound8(Regs()) && 0x8000 <= range
    }

    constructor (input: seq<Byte>)
      ensures this.input == input && pos == 0
    {
      this.input := input;
      range, code, low, pos := 0, 0, 0, 0;
    }

    method Read() returns (b: Byte)
      modifies `pos
      ensures b == ReadAt(input, old(pos)) && pos == old(pos) + 1
    {
      b := if pos < |input| then input[pos] else 0;
      pos := pos + 1;
    }

    method Init() returns (ok: bool)
      modifies this
      ensures Regs() == Relative(Opened(input, old(pos), 0x8000))
      ensures ok == (code < 0xFFFF_FFFF) && Valid()
    {
      low, code := 0, 0;
      range := 0xFFFF_FFFF;
      ghost var start := pos;
      ghost var q: nat := 0;
      for i := 0 to 4
        invariant pos == start + i
        invariant low == 0 && range == 0xFFFF_FFFF
        invariant Filled(input, start, i, code, q)
      {
        q := FillMore(input, start, i, code, q);
        var b := Read();
        code := Push(code, b);
      }
      ok := code < 0xFFFF_FFFF;
    }

    method GetThreshold(total: nat) returns (count: nat)
      requires 0 < total <= range
      modifies `range
      ensures count == Threshold8(old(Regs()), total)
      ensures Regs() == old(Regs()).(range := old(range) / total)
    {
      range := range / total;
      count := code / range;
    }

    method ShiftInByte()
      modifies this
      ensures Regs() == Registers8(Up(old(range)), Push(old(code), ReadAt(input, old(pos))),
                                   Up(old(low)), old(pos) + 1)
    {
      var b := Read();
      code := Push(code, b);
      range := Up(range);
      low := Up(low);
    }

    /** The loop that ends Decode. */
    method Normalize()
      requires Sound8(Regs())
      modifies this
      ensures Valid() && Regs() == Renorm8(old(Regs()), input)
    {
      while true
        invariant Sound8(Regs())
        invariant Renorm8(Regs(), input) == Renorm8(old(Regs()), input)
        decreases !AtEnd(low, range), 0x1_0000_0000 - range
      {
        ghost var d := Regs();
        var differ := TestTops(low, range);
        if differ {
          if 0x8000 <= range {
            break;
          }
          range := ToBoundary(low, 0x8000);
        }
        TurnSound(d.low, d.range, 0x8000);
        ShiftInByte();
      }
    }

    method Decode(start: nat, size: nat)
      requires Sound8(Skip8(Regs(), start, size))
      modifies this
      ensures Valid() && Regs() == Renorm8(Skip8(old(Regs()), start, size), input)
    {
      var skipped := U32(Times(start, range));
      low := Plus(low, skipped);
      code := Minus(code, skipped);
      range := U32(Times(size, range));
      Normalize();
    }
  }

  // ---------- agreement with the RAR decoder ----------

  /** The same registers with the code taken relative to `low`. */
  function Relative(d: Registers): Registers8 {
    Registers8(d.range, Minus(d.code, d.low), d.low, d.pos)
  }

  lemma TurnAgrees(d: Registers, input: seq<Byte>)
    requires d.bottom == 0x8000
    ensures Relative(Turn(d, input)) == Turn8(Relative(d), input)
  {
    RelativePush(d.code, d.low, ReadAt(input, d.pos));
  }

  lemma LowBytes(x: int, k: int, r: nat)
    requires x == 0x100_0000 * k + r && r < 0x100_0000
    ensures x % 0x100_0000 == r
  {
  }

  /** Subtracting before or after a byte comes in is the same modulo 2^32. */
  lemma RelativePush(code: Word, low: Word, b: Byte)
    ensures Minus(Push(code, b), Up(low)) == Push(Minus(code, low), b)
  {
    var c, l := code % 0x100_0000, low % 0x100_0000;
    var k := code / 0x100_0000 - low / 0x100_0000 + if low <= code then 0 else 256;
    if l <= c {
      LowBytes(Minus(code, low), k, c - l);
    } else {
      LowBytes(Minus(code, low), k - 1, c - l + 0x100_0000);
    }
  }

  lemma {:induction false} RenormAgrees(d: Registers, input: seq<Byte>)
    requires SoundRegisters(d) && d.bottom == 0x8000
    ensures Relative(Renorm(d, input)) == Renorm8(Relative(d), input)
    decreases !AtEnd(d.low, d.range), 0x1_0000_0000 - d.range
  {
    if !Done(d) {
      RenormTurn(d, input);
      TurnAgrees(d, input);
      RenormAgrees(Turn(d, input), input);
    }
  }

  lemma SkipAgrees(d: Registers, start: nat, size: nat)
    requires Fits(d, start, size) && d.bottom == 0x8000
    ensures Relative(SkipRar(d, start, size)) == Skip8(Relative(d), start, size)
  {
    assert U32(Times(start, d.range)) == Times(start, d.range);
  }

  /** One request: the total asked for, and the part of it then decoded. */
  datatype Request = Request(total: nat, start: nat, size: nat)

  predicate ValidRequest(q: Request) {
    0 < q.size && q.start + q.size <= q.total
  }

  predicate ValidRequests(qs: seq<Request>) {
    forall i :: 0 <= i < |qs| ==> ValidRequest(qs[i])
  }

  /** The thresholds the RAR decoder answers, as long as its range admits the total asked for. */
  ghost function ThresholdsRar(d: Registers, qs: seq<Request>, input: seq<Byte>): seq<nat>
    requires SoundRegisters(d) && d.bottom == 0x8000 <= d.range && ValidRequests(qs)
    decreases |qs|
  {
    if qs == [] || d.range < qs[0].total then []
    else
      DividedFits(d, qs[0].total, qs[0].start, qs[0].size);
      [Threshold(d, qs[0].total)]
      + ThresholdsRar(AfterRar(Divide(d, qs[0].total), qs[0].start, qs[0].size, input), qs[1..], input)
  }

  /** The thresholds the PPMd8 decoder answers, as long as its range admits the total asked for. */
  ghost function Thresholds8(d: Registers8, qs: seq<Request>, input: seq<Byte>): seq<nat>
    requires Sound8(d) && 0x8000 <= d.range && ValidRequests(qs)
    decreases |qs|
  {
    if qs == [] || d.range < qs[0].total then []
    else
      var divided := d.(range := d.range / qs[0].total);
      Divided8Sound(d, qs[0]);
      [Threshold8(d, qs[0].total)]
      + Thresholds8(Renorm8(Skip8(divided, qs[0].start, qs[0].size), input), qs[1..], input)
  }

  lemma Divided8Sound(d: Registers8, q: Request)
    requires Sound8(d) && ValidRequest(q) && q.total <= d.range
    ensures Sound8(Skip8(d.(range := d.range / q.total), q.start, q.size))
  {
    var r := d.range / q.total;
    DividedFits(Registers(d.range, d.code, d.low, 0x8000, d.pos), q.total, q.start, q.size);
    assert U32(Times(q.start, r)) == Times(q.start, r) && U32(Times(q.size, r)) == Times(q.size, r);
  }

  lemma DividedRelative(d: Registers, total: nat)
    requires 0 < total <= d.range
    ensures Relative(Divide(d, total)) == Relative(d).(range := d.range / total)
    ensures Threshold(d, total) == Threshold8(Relative(d), total)
  {
  }

  lemma SkippedSound(d: Registers, start: nat, size: nat)
    requires Fits(d, start, size) && d.bottom == 0x8000
    ensures SoundRegisters(SkipRar(d, start, size)) && Sound8(Relative(SkipRar(d, start, size)))
  {
    hide Times;
    var below, width := Times(start, d.range), Times(size, d.range);
    SmallWord(below);
    SmallWord(width);
    hide U32;
  }

  /** One request keeps the two decoders in step, for any total the range admits. */
  lemma RequestAgrees(d: Registers, q: Request, input: seq<Byte>)
    requires SoundRegisters(d) && d.bottom == 0x8000 && ValidRequest(q) && q.total <= d.range
    ensures Threshold(d, q.total) == Threshold8(Relative(d), q.total)
    ensures Fits(Divide(d, q.total), q.start, q.size)
    ensures var d8 := Relative(d);
            var skipped := Skip8(d8.(range := d8.range / q.total), q.start, q.size);
            var next := AfterRar(Divide(d, q.total), q.start, q.size, input);
            Sound8(skipped) && Relative(next) == Renorm8(skipped, input) && 0x8000 <= next.range
  {
    hide Renorm;
    hide Renorm8;
    hide Fits;
    hide SoundRegisters;
    hide Sound8;
    hide Threshold;
    hide Threshold8;
    hide SkipRar;
    hide Skip8;
    var divided := Divide(d, q.total);
    DividedFits(d, q.total, q.start, q.size);
    DividedRelative(d, q.total);
    SkipAgrees(divided, q.start, q.size);
    SkippedSound(divided, q.start, q.size);
    RarSkips(divided, q.start, q.size, input);
    RenormAgrees(SkipRar(divided, q.start, q.size), input);
    RenormRange(SkipRar(divided, q.start, q.size), input);
  }

  /**
    On the same bytes and the same requests both decoders give the same answers for ever: a total that is too large for
    the range of one is too large for that of the other.
   */
  lemma {:induction false} DecodersAgree(d: Registers, qs: seq<Request>, input: seq<Byte>)
    requires SoundRegisters(d) && d.bottom == 0x8000 <= d.range && ValidRequests(qs)
    ensures ThresholdsRar(d, qs, input) == Thresholds8(Relative(d), qs, input)
    decreases |qs|
  {
    hide Renorm8;
    hide AfterRar;
    hide Skip8;
    hide Sound8;
    hide Fits;
    if qs != [] && qs[0].total <= d.range {
      RequestAgrees(d, qs[0], input);
      DecodersAgree(AfterRar(Divide(d, qs[0].total), qs[0].start, qs[0].size, input), qs[1..], input);
    } else {
      SoundAsRelative(d);
    }
  }

  lemma SoundAsRelative(d: Registers)
    requires SoundRegisters(d) && d.bottom == 0x8000
    ensures Sound8(Relative(d))
  {
  }

  /** Totals up to 2^15 are always admitted, so with no larger ones every request is answered. */
  lemma {:induction false} AllAnswered(d: Registers, qs: seq<Request>, input: seq<Byte>)
    requires SoundRegisters(d) && d.bottom == 0x8000 <= d.range && ValidRequests(qs)
    requires forall i :: 0 <= i < |qs| ==> qs[i].total <= 0x8000
    ensures |ThresholdsRar(d, qs, input)| == |qs|
    decreases |qs|
  {
    hide AfterRar;
    hide Fits;
    if qs != [] {
      RequestAgrees(d, qs[0], input);
      AllAnswered(AfterRar(Divide(d, qs[0].total), qs[0].start, qs[0].size, input), qs[1..], input);
    }
  }
}
