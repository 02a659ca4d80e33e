/** UTF-8 to UTF-16LE: what the conversion promises, and the loop that does it. */
module Utf {
  import opened Options
  import opened Words

  type Scalar = c: int | 0 <= c < 0xD800 || 0xE000 <= c < 0x11_0000

  // ---------- UTF-8, by RFC 3629 ----------

  /** The octets of a character (section 3). */
  function Octets(c: Scalar): (s: seq<Byte>)
    ensures 1 <= |s| <= 4
  {
    if c < 0x80 then [c]
    else if c < 0x800 then [0xC0 + c / 64, 0x80 + c % 64]
    else if c < 0x1_0000 then [0xE0 + c / 4096, 0x80 + c / 64 % 64, 0x80 + c % 64]
    else [0xF0 + c / 262144, 0x80 + c / 4096 % 64, 0x80 + c / 64 % 64, 0x80 + c % 64]
  }

  function AllOctets(cs: seq<Scalar>): seq<Byte> {
    if cs == [] then [] else Octets(cs[0]) + AllOctets(cs[1..])
  }

  ghost predicate WellFormed(s: seq<Byte>) {
    exists cs :: AllOctets(cs) == s
  }

  predicate IsTail(s: seq<Byte>, k: nat) {
    k < |s| && 0x80 <= s[k] <= 0xBF
  }

  /** The number of octets of the character at the front, by the grammar of section 4; 0 when there is none. */
  function Width(s: seq<Byte>): (n: nat)
    ensures n <= 4 && n <= |s|
  {
    if s == [] then 0
    else if s[0] <= 0x7F then 1
    else if 0xC2 <= s[0] <= 0xDF && IsTail(s, 1) then 2
    else if 0xE0 <= s[0] <= 0xEF && IsTail(s, 1) && IsTail(s, 2) && (s[0] == 0xE0 ==> 0xA0 <= s[1]) && (s[0] == 0xED ==> s[1] <= 0x9F)
    then 3
    else if 0xF0 <= s[0] <= 0xF4 && IsTail(s, 1) && IsTail(s, 2) && IsTail(s, 3) && (s[0] == 0xF0 ==> 0x90 <= s[1])
            && (s[0] == 0xF4 ==> s[1] <= 0x8F)
    then 4
    else 0
  }

  /** The character those octets stand for. */
  function First(s: seq<Byte>): Scalar
    requires Width(s) > 0
  {
    if Width(s) == 1 then s[0]
    else if Width(s) == 2 then FirstOctets2(s[0], s[1]); Two(s[0], s[1])
    else if Width(s) == 3 then FirstOctets3(s[0], s[1], s[2]); Three(s[0], s[1], s[2])
    else FirstOctets4(s[0], s[1], s[2], s[3]); Four(s[0], s[1], s[2], s[3])
  }

  function Two(a: int, b: int): int {
    a % 32 * 64 + b % 64
  }

  function Three(a: int, b: int, c: int): int {
    a % 16 * 4096 + b % 64 * 64 + c % 64
  }

  function Four(a: int, b: int, c: int, d: int): int {
    a % 8 * 262144 + b % 64 * 4096 + c % 64 * 64 + d % 64
  }

  lemma Split(v: nat)
    ensures v == v / 64 * 64 + v % 64 && v / 4096 == v / 64 / 64 && v / 262144 == v / 4096 / 64
    ensures v == v / 4096 * 4096 + v / 64 % 64 * 64 + v % 64
    ensures v == v / 262144 * 262144 + v / 4096 % 64 * 4096 + v / 64 % 64 * 64 + v % 64
  {
  }

  lemma SixBits(q: nat, r: nat)
    requires r < 64
    ensures (64 * q + r) / 64 == q && (64 * q + r) % 64 == r
  {
  }

  lemma Digits(a: nat, b: nat, c: nat, d: nat)
    requires b < 64 && c < 64 && d < 64
    ensures var v := a * 262144 + b * 4096 + c * 64 + d;
            v / 262144 == a && v / 4096 % 64 == b && v / 64 % 64 == c && v % 64 == d
            && v / 4096 == a * 64 + b && v / 64 == a * 4096 + b * 64 + c
  {
    var v, w, x := a * 262144 + b * 4096 + c * 64 + d, a * 4096 + b * 64 + c, a * 64 + b;
    SixBits(w, d);
    SixBits(x, c);
    SixBits(a, b);
    assert v == 64 * w + d && w == 64 * x + c && x == 64 * a + b;
    Split(v);
  }

  /** The grammar describes exactly the octets of the characters. */
  lemma FirstOctets(s: seq<Byte>)
    requires Width(s) > 0
    ensures Octets(First(s)) == s[..Width(s)]
  {
    var n := Width(s);
    if n == 1 {
    } else if n == 2 {
      FirstOctets2(s[0], s[1]);
    } else if n == 3 {
      FirstOctets3(s[0], s[1], s[2]);
    } else {
      FirstOctets4(s[0], s[1], s[2], s[3]);
    }
  }

  lemma FirstOctets2(a: Byte, b: Byte)
    requires 0xC2 <= a <= 0xDF && 0x80 <= b <= 0xBF
    ensures 0x80 <= Two(a, b) < 0x800 && Octets(Two(a, b)) == [a, b]
  {
    var v: nat := (a - 0xC0) * 64 + (b - 0x80);
    Digits(0, 0, a - 0xC0, b - 0x80);
    assert a % 32 == a - 0xC0 && b % 64 == b - 0x80;
  }

  lemma FirstOctets3(a: Byte, b: Byte, c: Byte)
    requires 0xE0 <= a <= 0xEF && 0x80 <= b <= 0xBF && 0x80 <= c <= 0xBF
    requires (a == 0xE0 ==> 0xA0 <= b) && (a == 0xED ==> b <= 0x9F)
    ensures var v := Three(a, b, c);
            0x800 <= v < 0x1_0000 && (v < 0xD800 || 0xE000 <= v) && Octets(v) == [a, b, c]
  {
    Digits(0, a - 0xE0, b - 0x80, c - 0x80);
    assert a % 16 == a - 0xE0 && b % 64 == b - 0x80 && c % 64 == c - 0x80;
  }

  lemma LowThree(a: Byte)
    requires 0xF0 <= a <= 0xF7
    ensures a % 8 == a - 0xF0
  {
  }

  lemma LowSix(a: Byte)
    requires 0x80 <= a <= 0xBF
    ensures a % 64 == a - 0x80
  {
  }

  lemma FirstOctets4(a: Byte, b: Byte, c: Byte, d: Byte)
    requires 0xF0 <= a <= 0xF4 && 0x80 <= b <= 0xBF && 0x80 <= c <= 0xBF && 0x80 <= d <= 0xBF
    requires (a == 0xF0 ==> 0x90 <= b) && (a == 0xF4 ==> b <= 0x8F)
    ensures var v := Four(a, b, c, d);
            0x1_0000 <= v < 0x11_0000 && Octets(v) == [a, b, c, d]
  {
    Digits(a - 0xF0, b - 0x80, c - 0x80, d - 0x80);
    LowThree(a);
    LowSix(b);
    LowSix(c);
    LowSix(d);
  }

  lemma OctetsFirst(c: Scalar, rest: seq<Byte>)
    ensures var s := Octets(c) + rest;
            Width(s) == |Octets(c)| && First(s) == c
  {
    hide Two;
    hide Three;
    hide Four;
    if c < 0x80 {
    } else if c < 0x800 {
      OctetsFirst2(c);
    } else if c < 0x1_0000 {
      OctetsFirst3(c);
    } else {
      OctetsFirst4(c);
    }
  }

  lemma OctetsFirst2(c: nat)
    requires 0x80 <= c < 0x800
    ensures 2 <= c / 64 <= 31 && c % 64 < 64 && Two(0xC0 + c / 64, 0x80 + c % 64) == c
  {
    assert (0xC0 + c / 64) % 32 == c / 64 && (0x80 + c % 64) % 64 == c % 64;
  }

  lemma OctetsFirst3(c: nat)
    requires 0x800 <= c < 0x1_0000
    ensures c / 4096 <= 15 && (c / 4096 == 0 ==> c / 64 % 64 >= 0x20) && (0xD000 <= c < 0xD800 ==> c / 64 % 64 < 0x20)
    ensures c / 4096 == 13 <==> 0xD000 <= c < 0xE000
    ensures Three(0xE0 + c / 4096, 0x80 + c / 64 % 64, 0x80 + c % 64) == c
  {
    Split(c);
    var x, y, z := c / 4096, c / 64 % 64, c % 64;
    assert (0xE0 + x) % 16 == x && (0x80 + y) % 64 == y && (0x80 + z) % 64 == z;
  }

  lemma OctetsFirst4(c: nat)
    requires 0x1_0000 <= c < 0x11_0000
    ensures c / 262144 <= 4 && (c / 262144 == 0 ==> c / 4096 % 64 >= 0x10) && (c / 262144 == 4 ==> c / 4096 % 64 < 0x10)
    ensures Four(0xF0 + c / 262144, 0x80 + c / 4096 % 64, 0x80 + c / 64 % 64, 0x80 + c % 64) == c
  {
    Split(c);
    var w, x, y, z := c / 262144, c / 4096 % 64, c / 64 % 64, c % 64;
    assert (0xF0 + w) % 8 == w && (0x80 + x) % 64 == x && (0x80 + y) % 64 == y && (0x80 + z) % 64 == z;
  }

  /** The characters of a text; none when it is ill-formed. */
  function Scalars(s: seq<Byte>): Option<seq<Scalar>> {
    if s == [] then Some([])
    else if Width(s) == 0 then None
    else
      var rest := Scalars(s[Width(s)..]);
      if rest.None? then None else Some([First(s)] + rest.value)
  }

  /** They are the only characters with these octets. */
  lemma {:induction false} ScalarsUnique(s: seq<Byte>, cs: seq<Scalar>)
    ensures Scalars(s) == Some(cs) <==> AllOctets(cs) == s
    decreases |cs|, |s|
  {
    hide Octets;
    hide Width;
    hide First;
    if s == [] {
    } else if cs == [] {
    } else {
      if AllOctets(cs) == s {
        OctetsFirst(cs[0], AllOctets(cs[1..]));
        assert s[Width(s)..] == AllOctets(cs[1..]);
        ScalarsUnique(AllOctets(cs[1..]), cs[1..]);
        assert cs == [cs[0]] + cs[1..];
      }
      if Scalars(s) == Some(cs) {
        FirstOctets(s);
        var rest := s[Width(s)..];
        ScalarsUnique(rest, cs[1..]);
        assert Scalars(rest).value == cs[1..];
        assert s == s[..Width(s)] + rest;
      }
    }
  }

  lemma WellFormedIff(s: seq<Byte>)
    ensures Scalars(s).Some? <==> WellFormed(s)
  {
    if Scalars(s).Some? {
      ScalarsUnique(s, Scalars(s).value);
    }
    if WellFormed(s) {
      var cs :| AllOctets(cs) == s;
      ScalarsUnique(s, cs);
    }
  }

  // ---------- UTF-16, by RFC 2781 ----------

  function Unit(u: nat): (s: seq<Byte>)
    requires u < 0x1_0000
    ensures |s| == 2
  {
    [u % 256, u / 256]
  }

  function Units(c: Scalar): seq<Byte> {
    if c < 0x1_0000 then Unit(c)
    else Unit(0xD800 + (c - 0x1_0000) / 1024) + Unit(0xDC00 + (c - 0x1_0000) % 1024)
  }

  function AllUnits(cs: seq<Scalar>): seq<Byte> {
    if cs == [] then [] else Units(cs[0]) + AllUnits(cs[1..])
  }

  function UnitAt(s: seq<Byte>, k: nat): nat
    requires k + 1 < |s|
  {
    s[k] + 256 * (s[k + 1] as int)
  }

  function Paired(high: int, low: int): int {
    0x1_0000 + high % 1024 * 1024 + low % 1024
  }

  /** Decoding (section 2.2): a unit outside the surrogates, or a high and then a low one. */
  function Decoded(s: seq<Byte>): Option<seq<Scalar>> {
    if s == [] then Some([])
    else if |s| == 1 then None
    else
      var w1 := UnitAt(s, 0);
      if w1 < 0xD800 || 0xDFFF < w1 then
        var rest := Decoded(s[2..]);
        if rest.None? then None else Some([w1] + rest.value)
      else if 0xDBFF < w1 || |s| < 4 || UnitAt(s, 2) < 0xDC00 || 0xDFFF < UnitAt(s, 2) then None
      else
        var rest := Decoded(s[4..]);
        if rest.None? then None
        else Some([Paired(w1, UnitAt(s, 2))] + rest.value)
  }

  /**
    Each unit has its low byte first; a character from 0x10000 on takes a high and then a low surrogate, whose ten bits
    each make up the distance from there.
   */
  lemma UnitBytes(c: Scalar)
    ensures c < 0x1_0000 ==> |Units(c)| == 2 && Units(c)[0] + 0x100 * (Units(c)[1] as int) == c
    ensures 0x1_0000 <= c ==>
              && |Units(c)| == 4
              && var high, low := Units(c)[0] + 0x100 * (Units(c)[1] as int), Units(c)[2] + 0x100 * (Units(c)[3] as int);
                 && 0xD800 <= high < 0xDC00 <= low < 0xE000
                 && c - 0x1_0000 == 0x400 * (high - 0xD800) + (low - 0xDC00)
  {
    if 0x1_0000 <= c {
      var d := c - 0x1_0000;
      assert d == 1024 * (d / 1024) + d % 1024;
      TwoBytes(0xD800 + d / 1024);
      TwoBytes(0xDC00 + d % 1024);
    } else {
      TwoBytes(c);
    }
  }

  lemma TwoBytes(u: nat)
    requires u < 0x1_0000
    ensures Unit(u)[0] + 0x100 * (Unit(u)[1] as int) == u
  {
  }

  /** The examples of section 7 of RFC 3629 and section 5 of RFC 2781, low bytes first. */
  lemma Examples()
    ensures Octets(0x41) == [0x41] && Octets(0x391) == [0xCE, 0x91] && Octets(0x2262) == [0xE2, 0x89, 0xA2]
    ensures Octets(0x2_33B4) == [0xF0, 0xA3, 0x8E, 0xB4]
    ensures Units(0x52) == [0x52, 0] && Units(0x1_2345) == [0x08, 0xD8, 0x45, 0xDF]
  {
  }

  lemma UnitIs(u: nat, rest: seq<Byte>)
    requires u < 0x1_0000
    ensures UnitAt(Unit(u) + rest, 0) == u
  {
  }

  lemma Pair(v: nat)
    requires v < 0x10_0000
    ensures 0xD800 <= 0xD800 + v / 1024 <= 0xDBFF && 0xDC00 <= 0xDC00 + v % 1024 <= 0xDFFF
    ensures Paired(0xD800 + v / 1024, 0xDC00 + v % 1024) == v + 0x1_0000
  {
    var h, l := v / 1024, v % 1024;
    assert (0xD800 + h) % 1024 == h && (0xDC00 + l) % 1024 == l;
  }

  lemma DecodedPair(high: nat, low: nat, rest: seq<Byte>)
    requires 0xD800 <= high <= 0xDBFF && 0xDC00 <= low <= 0xDFFF && Decoded(rest).Some?
    ensures Decoded(Unit(high) + Unit(low) + rest) == Some([Paired(high, low)] + Decoded(rest).value)
  {
    hide Paired;
    var s := Unit(high) + Unit(low) + rest;
    UnitIs(high, Unit(low) + rest);
    UnitIs(low, rest);
    assert s == Unit(high) + (Unit(low) + rest);
    assert s[2..] == Unit(low) + rest && s[4..] == rest;
    assert UnitAt(s, 2) == UnitAt(s[2..], 0);
  }

  lemma DecodedStep(c: Scalar, rest: seq<Byte>)
    requires Decoded(rest).Some?
    ensures Decoded(Units(c) + rest) == Some([c] + Decoded(rest).value)
  {
    if c < 0x1_0000 {
      hide Unit;
      UnitIs(c, rest);
      assert |Unit(c)| == 2 && (Unit(c) + rest)[2..] == rest;
    } else {
      hide Unit;
      hide Paired;
      hide Decoded;
      var v := c - 0x1_0000;
      Pair(v);
      DecodedPair(0xD800 + v / 1024, 0xDC00 + v % 1024, rest);
    }
  }

  lemma {:induction false} DecodedAll(cs: seq<Scalar>)
    ensures Decoded(AllUnits(cs)) == Some(cs)
  {
    hide Units;
    if cs != [] {
      DecodedAll(cs[1..]);
      DecodedStep(cs[0], AllUnits(cs[1..]));
      assert cs == [cs[0]] + cs[1..];
    }
  }

  lemma {:induction false} AllUnitsSnoc(cs: seq<Scalar>, c: Scalar)
    ensures AllUnits(cs + [c]) == AllUnits(cs) + Units(c)
  {
    hide Units;
    if cs == [] {
      assert cs + [c] == [c];
      assert AllUnits([c]) == Units(c) + AllUnits([]);
    } else {
      assert (cs + [c])[1..] == cs[1..] + [c];
      AllUnitsSnoc(cs[1..], c);
    }
  }

  lemma {:induction false} AllOctetsSnoc(cs: seq<Scalar>, c: Scalar)
    ensures AllOctets(cs + [c]) == AllOctets(cs) + Octets(c)
  {
    hide Octets;
    if cs == [] {
      assert cs + [c] == [c];
      assert AllOctets([c]) == Octets(c) + AllOctets([]);
    } else {
      assert (cs + [c])[1..] == cs[1..] + [c];
      AllOctetsSnoc(cs[1..], c);
    }
  }

  // ---------- the conversion ----------

  predicate Tail(b: Byte) {
    0x80 <= b <= 0xBF
  }

  /** `utf8_codepoint`: the character at `p` and where the next one starts, or none. */
  method Codepoint(input: seq<Byte>, p: nat) returns (c: Option<Scalar>, next: nat)
    requires p < |input|
    ensures c.Some? <==> Width(input[p..]) > 0
    ensures c.Some? ==> c.value == First(input[p..]) && next == p + Width(input[p..])
  {
    ghost var s := input[p..];
    assert forall k: nat :: k < |s| ==> s[k] == input[p + k];
    var left := |input| - p;
    var p0 := input[p];
    next := p;
    if p0 < 0x80 {
      return Some(p0), p + 1;
    }
    if 0xC2 <= p0 <= 0xDF {
      if left < 2 || !Tail(input[p + 1]) {
        return None, p;
      }
      assert Width(s) == 2 && Two(p0, input[p + 1]) == First(s);
      c, next := Some(Two(p0, input[p + 1])), p + 2;
    } else if 0xE0 <= p0 <= 0xEF {
      if left < 3 || !Tail(input[p + 1]) || !Tail(input[p + 2]) || (p0 == 0xE0 && input[p + 1] < 0xA0)
         || (p0 == 0xED && input[p + 1] >= 0xA0) {
        return None, p;
      }
      assert Width(s) == 3 && Three(p0, input[p + 1], input[p + 2]) == First(s);
      c, next := Some(Three(p0, input[p + 1], input[p + 2])), p + 3;
    } else if 0xF0 <= p0 <= 0xF4 {
      if left < 4 || !Tail(input[p + 1]) || !Tail(input[p + 2]) || !Tail(input[p + 3]) || (p0 == 0xF0 && input[p + 1] < 0x90)
         || (p0 == 0xF4 && input[p + 1] >= 0x90) {
        return None, p;
      }
      assert Width(s) == 4 && Four(p0, input[p + 1], input[p + 2], input[p + 3]) == First(s);
      c := Some(Four(p0, input[p + 1], input[p + 2], input[p + 3]));
      next := p + 4;
    } else {
      return None, p;
    }
  }

  /** The octets that are not yet read are enough for twice as many bytes. */
  lemma Shorter(c: Scalar)
    ensures |Units(c)| <= 2 * |Octets(c)|
  {
  }

  method PutUnits(out: array<Byte>, q: nat, c: Scalar) returns (q': nat)
    requires q + |Units(c)| <= out.Length
    modifies out
    ensures q' == q + |Units(c)| && out[..q'] == old(out[..q]) + Units(c)
  {
    q' := q;
    if c <= 0xFFFF {
      out[q'] := c % 256;
      out[q' + 1] := c / 256;
      q' := q' + 2;
    } else {
      var v := c - 0x1_0000;
      var high := 0xD800 + v / 1024;
      var low := 0xDC00 + v % 1024;
      out[q'] := high % 256;
      out[q' + 1] := high / 256;
      out[q' + 2] := low % 256;
      out[q' + 3] := low / 256;
      q' := q' + 4;
    }
  }

  lemma Step(input: seq<Byte>, p: nat, before: seq<Scalar>)
    requires p < |input| && AllOctets(before) == input[..p] && Width(input[p..]) > 0
    ensures var c := First(input[p..]);
            && AllOctets(before + [c]) == input[..p + Width(input[p..])] && |Octets(c)| == Width(input[p..])
            && AllUnits(before + [c]) == AllUnits(before) + Units(c)
  {
    hide Width;
    hide First;
    hide Octets;
    var s := input[p..];
    FirstOctets(s);
    AllOctetsSnoc(before, First(s));
    AllUnitsSnoc(before, First(s));
    assert input[..p] + s[..Width(s)] == input[..p + Width(s)];
  }

  lemma {:induction false} IllFormed(input: seq<Byte>, p: nat, before: seq<Scalar>)
    requires p < |input| && AllOctets(before) == input[..p] && Width(input[p..]) == 0
    ensures Scalars(input).None?
    decreases |before|
  {
    hide Width;
    hide First;
    hide Octets;
    if before == [] {
      assert input[0..] == input;
    } else {
      var c, rest := before[0], AllOctets(before[1..]);
      var n := |Octets(c)|;
      assert input == Octets(c) + (rest + input[p..]) by {
        assert input == input[..p] + input[p..];
      }
      OctetsFirst(c, rest + input[p..]);
      var tail := input[n..];
      assert tail == rest + input[p..] && tail[..|rest|] == rest && tail[|rest|..] == input[p..];
      IllFormed(tail, |rest|, before[1..]);
    }
  }

  /**
    `__archive_cryptor_utf8_to_utf16le`: it succeeds exactly on well-formed texts (of a length that can be doubled), within
    twice the room; what it gives decodes to characters whose UTF-8 octets are the input.
   */
  method ToUtf16(input: seq<Byte>) returns (r: Option<seq<Byte>>)
    ensures r.Some? <==> |input| <= SIZE_MAX / 2 && WellFormed(input)
    ensures r.Some? ==> |r.value| <= 2 * |input|
    ensures r.Some? ==> Decoded(r.value).Some? && AllOctets(Decoded(r.value).value) == input
  {
    hide Width;
    hide First;
    hide Octets;
    hide Units;
    hide WellFormed;
    if |input| > SIZE_MAX / 2 {
      return None;
    }
    WellFormedIff(input);
    var out := new Byte[if |input| == 0 then 1 else |input| * 2];
    var p: nat, q: nat := 0, 0;
    ghost var done: seq<Scalar> := [];
    while p < |input|
      invariant p <= |input| && q <= 2 * p && q <= out.Length && AllOctets(done) == input[..p] && out[..q] == AllUnits(done)
      decreases |input| - p
    {
      var c, after := Codepoint(input, p);
      if c.None? {
        IllFormed(input, p, done);
        return None;
      }
      Step(input, p, done);
      Shorter(c.value);
      q := PutUnits(out, q, c.value);
      p := after;
      done := done + [c.value];
    }
    assert input[..p] == input;
    ScalarsUnique(input, done);
    DecodedAll(done);
    return Some(out[..q]);
  }
}
