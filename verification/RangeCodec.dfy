/** Whole runs of the encoder and the decoder objects, and one through the other. */
module RangeCodec {
  import opened Words
  import opened RangeSpec
  import opened RangeEncoder
  import opened RangeDecoder
  import opened RangeRoundTrip

  method EncodeStep(rc: Encoder, s: Step)
    requires rc.Valid() && ValidStep(s)
    modifies rc
    ensures rc.Valid() && rc.Abs() == Take(old(rc.Abs()), s)
  {
    match s {
      case Symbol(start, size, total) => rc.Encode(start, size, total);
      case Bit(size0, bit) =>
        if bit == 0 {
          rc.EncodeBit0(size0);
        } else {
          rc.EncodeBit1(size0);
        }
    }
  }

  /** Any run through the encoder, flushed: the exact code of the run. */
  method EncodeAll(steps: seq<Step>) returns (code: seq<Byte>)
    requires ValidSteps(steps)
    ensures code == Code(steps)
  {
    hide Take;
    var rc := new Encoder();
    var i := 0;
    while i < |steps|
      invariant i <= |steps| && rc.Valid() && fresh(rc)
      invariant 0x100_0000 <= rc.Abs().range < 0x1_0000_0000 && Run(rc.Abs(), steps[i..]) == Run(START, steps)
    {
      NextOf(rc.Abs(), steps[i..]);
      assert steps[i..][1..] == steps[i + 1..];
      EncodeStep(rc, steps[i]);
      i := i + 1;
    }
    rc.FlushData();
    code := rc.output;
  }

  lemma NextOf(iv: Interval, steps: seq<Step>)
    requires ValidSteps(steps) && steps != [] && 0x100_0000 <= iv.range < 0x1_0000_0000
    ensures Run(iv, steps) == Run(Take(iv, steps[0]), steps[1..])
  {
  }

  /** What the decoder answers for a step: a threshold inside the share, or the bit. */
  predicate Answers(s: Step, answer: nat) {
    match s
    case Symbol(start, size, _) => start <= answer < start + size
    case Bit(_, bit) => answer == bit
  }

  method DecodeStep(rc: Decoder, s: Step, ghost rest: seq<Step>) returns (answer: nat)
    requires ValidStep(s) && ValidSteps(rest) && rc.Valid7z() && ValidSteps([s] + rest)
    requires Mirrors(rc.input, rc.Regs(), [s] + rest)
    modifies rc
    ensures rc.Valid7z() && Answers(s, answer) && Mirrors(rc.input, rc.Regs(), rest)
  {
    hide After7z;
    hide AfterBit7z;
    hide Threshold;
    hide Divide;
    hide Bit7z;
    assert ([s] + rest)[1..] == rest;
    match s {
      case Symbol(start, size, total) =>
        answer := rc.GetThreshold(total);
        rc.Decode7z(start, size);
      case Bit(size0, bit) =>
        answer := rc.DecodeBit7z(size0);
    }
  }

  /**
    A run of the decoder over the code of a run, asked for the same totals and probabilities: it opens, every threshold
    lies in the share that was coded, every bit is the one that was coded, and code 0 is left.
   */
  method DecodeAll(code: seq<Byte>, steps: seq<Step>) returns (ok: bool, answers: seq<nat>)
    requires ValidSteps(steps) && code == Code(steps)
    ensures ok && |answers| == |steps| && forall i :: 0 <= i < |steps| ==> Answers(steps[i], answers[i])
  {
    hide Code;
    hide Mirrors;
    hide Opened;
    RoundTrip(steps);
    var rc := new Decoder(code);
    answers := [];
    ok := rc.Init7z();
    var i := 0;
    while i < |steps|
      invariant i == |answers| <= |steps| && rc.Valid7z() && rc.input == code && fresh(rc)
      invariant Mirrors(code, rc.Regs(), steps[i..]) && forall k :: 0 <= k < i ==> Answers(steps[k], answers[k])
    {
      assert steps[i..] == [steps[i]] + steps[i + 1..];
      var answer := DecodeStep(rc, steps[i], steps[i + 1..]);
      answers := answers + [answer];
      i := i + 1;
    }
  }

  /** One object's output through the other. */
  method Transmit(steps: seq<Step>) returns (ok: bool, answers: seq<nat>)
    requires ValidSteps(steps)
    ensures ok && |answers| == |steps| && forall i :: 0 <= i < |steps| ==> Answers(steps[i], answers[i])
  {
    var code := EncodeAll(steps);
    ok, answers := DecodeAll(code, steps);
  }
}
