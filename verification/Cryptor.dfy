/** Counter-mode streaming and buffered chaining-mode decryption, whatever the pieces the data comes in. */
module Cryptor {
  import opened Words
  import opened CipherSpec

  // ---------- counter mode ----------

  /** A counter, the cipher of the counter, and how much of that is used up. */
  class Counter {
    const cipher: Cipher
    const nonce: array<Byte>
    const buffer: array<Byte>
    var pos: nat
    /** How often the counter was increased. */
    ghost var blocks: nat

    ghost predicate Apart() {
      nonce.Length == 16 && buffer.Length == 16 && nonce != buffer
    }

    ghost predicate Keyed()
      reads `blocks, nonce, buffer
    {
      Apart() && nonce[..] == Nonce(blocks) && (blocks > 0 ==> buffer[..] == cipher(Nonce(blocks)))
    }

    ghost predicate Valid()
      reads this, nonce, buffer
    {
      Keyed() && pos <= 16 && (blocks == 0 ==> pos == 16)
    }

    /** How many bytes were given out. */
    ghost function Used(): nat
      requires Valid()
      reads this, nonce, buffer
    {
      16 * blocks + pos - 16
    }

    /** `aes_ctr_init`: a counter of zero, and nothing of its cipher left. */
    constructor (cipher: Cipher)
      ensures Valid() && Used() == 0 && this.cipher == cipher && fresh(nonce) && fresh(buffer)
    {
      this.cipher := cipher;
      nonce := new Byte[16](_ => 0);
      buffer := new Byte[16](_ => 0);
      pos, blocks := 16, 0;
      new;
      NonceZero();
    }

    /** The carry has come to byte `j`. */
    ghost predicate Carried(low: seq<Byte>, high: seq<Byte>, j: nat)
      reads nonce
    {
      && nonce.Length == 16 && |low| == 8 && j <= 8 && nonce[8..] == high
      && nonce[j..8] == low[j..] && Increment(low) == nonce[..j] + Increment(low[j..])
    }

    /** One more on byte `j`; zero means a carry. */
    method BumpByte(ghost low: seq<Byte>, ghost high: seq<Byte>, j: nat) returns (carry: bool)
      requires Carried(low, high, j) && j < 8
      modifies nonce
      ensures if carry then Carried(low, high, j + 1) else Increment(low) == nonce[..8] && nonce[8..] == high
    {
      hide Increment;
      ghost var before, after := nonce[..j], low[j + 1..];
      assert nonce[j] == nonce[j..8][0] == low[j] && nonce[j + 1..8] == nonce[j..8][1..] == after;
      assert low[j..] == [low[j]] + after;
      CarryStep(Increment(low), before, low[j], after);
      nonce[j] := if nonce[j] == 255 then 0 else nonce[j] + 1;
      assert nonce[..j + 1] == before + [nonce[j]] && nonce[j + 1..8] == after;
      carry := nonce[j] == 0;
      if !carry {
        assert nonce[..8] == nonce[..j + 1] + nonce[j + 1..8];
      }
    }

    /** `aes_ctr_increase_counter`: byte by byte until one does not wrap around to zero. */
    method IncreaseCounter()
      requires Apart() && nonce[..] == Nonce(blocks)
      modifies nonce
      ensures nonce[..] == Nonce(blocks + 1)
    {
      hide Increment;
      hide LittleEndian;
      ghost var low, high := nonce[..8], nonce[8..];
      assert low == LittleEndian(blocks, 8) && high == seq(8, _ => 0);
      var j := 0;
      var carry := true;
      assert low[0..] == low && nonce[..0] == [];
      while j < 8 && carry
        invariant j <= 8 && if carry then Carried(low, high, j) else Increment(low) == nonce[..8] && nonce[8..] == high
        decreases 8 - j, carry
      {
        carry := BumpByte(low, high, j);
        j := j + 1;
      }
      if carry {
        NothingToIncrement();
        assert low[8..] == [] && Increment(low) == nonce[..8];
      }
      IncrementIs(blocks, 8);
      assert nonce[..] == nonce[..8] + nonce[8..];
    }

    /** `aes_ctr_encrypt_counter`. */
    method EncryptCounter()
      requires Apart()
      modifies buffer
      ensures buffer[..] == cipher(nonce[..])
    {
      ghost var was := nonce[..];
      var block := cipher(nonce[..]);
      forall k | 0 <= k < 16 {
        buffer[k] := block[k];
      }
      assert buffer[..] == block && nonce[..] == was;
    }

    method NextBlock()
      requires Keyed()
      modifies `blocks, nonce, buffer
      ensures Keyed() && blocks == old(blocks) + 1
    {
      hide Nonce;
      IncreaseCounter();
      blocks := blocks + 1;
      EncryptCounter();
    }

    /** The first `i` bytes are done; nothing else has changed. */
    ghost predicate Written(input: array<Byte>, out: array<Byte>, data: seq<Byte>, was: seq<Byte>, at: nat, i: nat)
      reads input, out
    {
      && |data| == input.Length && |was| == out.Length && i <= |data| && i <= |was|
      && (forall j :: 0 <= j < i ==> out[j] == XorByte(data[j], KeyByte(cipher, at + j)))
      && (forall j :: i <= j < out.Length ==> out[j] == was[j])
      && (forall j :: i <= j < input.Length ==> input[j] == data[j])
    }

    method PutByte(
        input: array<Byte>, out: array<Byte>, i: nat, p: nat, ghost data: seq<Byte>, ghost was: seq<Byte>, ghost at: nat)
      requires Keyed() && blocks > 0 && p < 16 && at + i == 16 * blocks + p - 16
      requires i < input.Length && i < out.Length && Written(input, out, data, was, at, i)
      requires out != nonce && out != buffer
      modifies out
      ensures Written(input, out, data, was, at, i + 1)
    {
      hide Nonce;
      hide XorByte;
      assert (at + i) / 16 + 1 == blocks && (at + i) % 16 == p;
      assert buffer[p] == buffer[..][p] == KeyByte(cipher, at + i);
      out[i] := XorByte(input[i], buffer[p]);
    }

    /** Sixteen bytes at once. */
    method PutBlock(
        input: array<Byte>, out: array<Byte>, i: nat, ghost data: seq<Byte>, ghost was: seq<Byte>, ghost at: nat)
      requires Keyed() && blocks > 0 && at + i == 16 * blocks - 16
      requires i + 16 <= input.Length && i + 16 <= out.Length && Written(input, out, data, was, at, i)
      requires out != nonce && out != buffer
      modifies out
      ensures Written(input, out, data, was, at, i + 16)
    {
      hide Nonce;
      hide Written;
      var p := 0;
      while p < 16
        invariant p <= 16 && Keyed() && Written(input, out, data, was, at, i + p)
      {
        PutByte(input, out, i + p, p, data, was, at);
        p := p + 1;
      }
    }

    /**
      `aes_ctr_update`: as many bytes as there are and there is room for, with the key stream from where the last update
      left off. The output may be the input.
     */
    method Update(input: array<Byte>, inLen: nat, out: array<Byte>, outLen: nat) returns (written: nat)
      requires Valid() && inLen <= input.Length && outLen <= out.Length
      requires out != nonce && out != buffer && input != nonce && input != buffer
      modifies this, nonce, buffer, out
      ensures Valid() && written == (if inLen < outLen then inLen else outLen) && Used() == old(Used()) + written
      ensures out[..written] == Stream(cipher, old(input[..written]), old(Used()))
      ensures out[written..] == old(out[written..])
    {
      hide Nonce;
      hide Written;
      var max := if inLen < outLen then inLen else outLen;
      var i, p := 0, pos;
      ghost var data, was, at := input[..], out[..], Used();
      assert Written(input, out, data, was, at, 0) by {
        Unwritten(input, out, at);
      }
      while i < max
        invariant 0 <= i <= max && Keyed() && 0 <= p <= 16 && (blocks == 0 ==> p == 16) && at + i == 16 * blocks + p - 16
        invariant Written(input, out, data, was, at, i)
      {
        if p == 16 {
          NextBlock();
          while max - i >= 16
            invariant 0 <= i <= max && Keyed() && blocks > 0 && at + i == 16 * blocks - 16
            invariant Written(input, out, data, was, at, i)
          {
            PutBlock(input, out, i, data, was, at);
            i := i + 16;
            NextBlock();
          }
          p := 0;
          if i >= max {
            break;
          }
        }
        PutByte(input, out, i, p, data, was, at);
        i, p := i + 1, p + 1;
      }
      pos := p;
      written := i;
      WrittenIs(input, out, data, was, at, written);
    }

    lemma Unwritten(input: array<Byte>, out: array<Byte>, at: nat)
      ensures Written(input, out, input[..], out[..], at, 0)
    {
    }

    lemma WrittenIs(input: array<Byte>, out: array<Byte>, data: seq<Byte>, was: seq<Byte>, at: nat, i: nat)
      requires Written(input, out, data, was, at, i)
      ensures out[..i] == Stream(cipher, data[..i], at) && out[i..] == was[i..]
    {
      hide XorByte;
      hide KeyByte;
    }
  }

  /** The chunks one after the other through a new counter. */
  method Transform(cipher: Cipher, chunks: seq<seq<Byte>>) returns (r: seq<Byte>)
    ensures r == Stream(cipher, Concat(chunks), 0)
  {
    hide Stream;
    var counter := new Counter(cipher);
    r := [];
    assert Stream(cipher, Concat([]), 0) == [];
    var k := 0;
    while k < |chunks|
      invariant k <= |chunks| && counter.Valid() && fresh(counter) && fresh(counter.nonce) && fresh(counter.buffer)
      invariant counter.cipher == cipher && counter.Used() == |Concat(chunks[..k])|
      invariant r == Stream(cipher, Concat(chunks[..k]), 0)
    {
      var chunk := chunks[k];
      var a := new Byte[|chunk|](j requires 0 <= j < |chunk| => chunk[j]);
      assert a[..] == chunk && a[..|chunk|] == chunk;
      var n := counter.Update(a, |chunk|, a, |chunk|);
      assert chunks[..k + 1] == chunks[..k] + [chunk];
      ConcatSnoc(chunks[..k], chunk);
      StreamAppend(cipher, Concat(chunks[..k]), chunk, 0);
      r := r + a[..];
      assert a[..] == a[..n];
      k := k + 1;
    }
    assert chunks[..k] == chunks;
  }

  /** However the coded bytes are cut up, they come out as the plain ones. */
  method Undo(cipher: Cipher, plain: seq<seq<Byte>>, coded: seq<seq<Byte>>) returns (r: seq<Byte>)
    requires Concat(coded) == Stream(cipher, Concat(plain), 0)
    ensures r == Concat(plain)
  {
    hide Stream;
    r := Transform(cipher, coded);
    StreamTwice(cipher, Concat(plain), 0);
  }

  // ---------- chaining mode ----------

  /** Decryption of blocks that may come in pieces: the start of an incomplete one is kept for the next piece. */
  class Chaining {
    const inverse: Cipher
    var iv: Block
    const buffer: array<Byte>
    var pos: nat

    ghost predicate Valid()
      reads this, buffer
    {
      buffer.Length == 16 && pos < 16
    }

    constructor (inverse: Cipher, iv: Block)
      ensures Valid() && pos == 0 && this.inverse == inverse && this.iv == iv && fresh(buffer)
    {
      this.inverse, this.iv, pos := inverse, iv, 0;
      buffer := new Byte[16](_ => 0);
    }

    /** What the library does with whole blocks: the vector it leaves behind is the last of them. */
    method DecryptBlocks(data: Blocks, out: array<Byte>, at: nat)
      requires at + |data| <= out.Length
      modifies `iv, out
      ensures iv == LastBlock(old(iv), data)
      ensures out[..at + |data|] == old(out[..at]) + CbcDecrypt(inverse, old(iv), data)
      ensures out[at + |data|..] == old(out[at + |data|..])
    {
      var plain := CbcDecrypt(inverse, iv, data);
      iv := LastBlock(iv, data);
      forall k | 0 <= k < |data| {
        out[at + k] := plain[k];
      }
      assert out[..at + |data|] == old(out[..at]) + plain;
    }

    method Keep(at: nat, data: seq<Byte>)
      requires buffer.Length == 16 && at + |data| <= 16
      modifies buffer
      ensures buffer[..at + |data|] == old(buffer[..at]) + data
    {
      forall k | 0 <= k < |data| {
        buffer[at + k] := data[k];
      }
    }

    /** The part of an update after the kept bytes: whole blocks are decrypted, and what is left is kept. */
    method UpdateBlocks(input: seq<Byte>, out: array<Byte>, at: nat) returns (written: nat)
      requires buffer.Length == 16 && out != buffer && at + Full(|input|) <= out.Length
      modifies this, buffer, out
      ensures Valid() && written == at + Full(|input|)
      ensures iv == LastBlock(old(iv), input[..written - at]) && buffer[..pos] == input[written - at..]
      ensures out[..written] == old(out[..at]) + CbcDecrypt(inverse, old(iv), input[..written - at])
      ensures out[written..] == old(out[written..])
    {
      hide CbcDecrypt;
      hide LastBlock;
      hide Full;
      var blocks := Full(|input|);
      NoBlocks(inverse, iv);
      if blocks != 0 {
        DecryptBlocks(input[..blocks], out, at);
      }
      written := at + blocks;
      Keep(0, input[blocks..]);
      pos := |input| - blocks;
    }

    /** The bytes kept and the first of the new ones make a block. */
    method DecryptKept(input: seq<Byte>, out: array<Byte>)
      requires Valid() && 0 < pos && 16 - pos <= |input| && 16 <= out.Length && out != buffer
      modifies `iv, buffer, out
      ensures var all := old(buffer[..pos]) + input;
              && all[16..] == input[16 - pos..] && iv == LastBlock(old(iv), all[..16])
              && out[..16] == CbcDecrypt(inverse, old(iv), all[..16]) && out[16..] == old(out[16..])
    {
      hide CbcDecrypt;
      hide LastBlock;
      ghost var all := buffer[..pos] + input;
      var fill := 16 - pos;
      Keep(pos, input[..fill]);
      assert buffer[..] == buffer[..16] == all[..16];
      DecryptBlocks(buffer[..], out, 0);
    }

    /**
      `aes_cbc_decrypt_update`: what was kept and the new piece are decrypted as far as they are whole blocks; it fails,
      changing nothing, when there is no room for those.
     */
    method Update(input: seq<Byte>, out: array<Byte>, room: nat) returns (ok: bool, written: nat)
      requires Valid() && room <= out.Length && out != buffer
      modifies this, buffer, out
      ensures Valid()
      ensures var all := old(buffer[..pos]) + input;
              var whole := Full(|all|);
              && (ok <==> |all| <= SIZE_MAX && whole <= room)
              && (ok ==> written == whole && out[..whole] == CbcDecrypt(inverse, old(iv), all[..whole])
                         && iv == LastBlock(old(iv), all[..whole]) && buffer[..pos] == all[whole..])
      ensures !ok ==> written == 0 && iv == old(iv) && buffer[..] == old(buffer[..]) && pos == old(pos)
      ensures written <= out.Length && out[written..] == old(out[written..])
    {
      hide CbcDecrypt;
      hide LastBlock;
      hide Full;
      ghost var kept := buffer[..pos];
      ghost var all := kept + input;
      written := 0;
      if |input| > SIZE_MAX - pos {
        return false, 0;
      }
      var available := pos + |input|;
      var needed := Full(available);
      if room < needed {
        return false, 0;
      }
      var start := 0;
      if pos != 0 {
        var fill := 16 - pos;
        if fill > |input| {
          Keep(pos, input);
          pos := pos + |input|;
          NoBlocks(inverse, iv);
          assert all[..0] == [] && all[0..] == all;
          return true, 0;
        }
        DecryptKept(input, out);
        start, written := fill, 16;
      }
      NoBlocks(inverse, old(iv));
      assert all[written..] == input[start..];
      Joined(inverse, old(iv), all, written);
      written := UpdateBlocks(input[start..], out, written);
      ok := true;
    }

    /** `aes_cbc_decrypt_release`: it fails exactly when bytes are left over, and clears everything. */
    method Release() returns (ok: bool)
      requires Valid()
      modifies this, buffer
      ensures ok <==> old(pos) == 0
      ensures Valid() && pos == 0 && iv == seq(16, _ => 0) && buffer[..] == seq(16, _ => 0)
    {
      ok := pos == 0;
      iv, pos := seq(16, _ => 0), 0;
      forall k | 0 <= k < 16 {
        buffer[k] := 0;
      }
    }
  }

  lemma NoBlocks(inverse: Cipher, iv: Block)
    ensures CbcDecrypt(inverse, iv, []) == [] && LastBlock(iv, []) == iv
  {
  }

  /** Complete blocks in two parts. */
  lemma Joined(inverse: Cipher, iv: Block, all: seq<Byte>, first: nat)
    requires first % 16 == 0 && first <= |all|
    ensures var rest := all[first..];
            var blocks := Full(|rest|);
            && first + blocks == Full(|all|) && all[first + blocks..] == rest[blocks..]
            && CbcDecrypt(inverse, iv, all[..first + blocks])
               == CbcDecrypt(inverse, iv, all[..first]) + CbcDecrypt(inverse, LastBlock(iv, all[..first]), rest[..blocks])
            && LastBlock(iv, all[..first + blocks]) == LastBlock(LastBlock(iv, all[..first]), rest[..blocks])
  {
    hide CbcDecrypt;
    hide LastBlock;
    var rest := all[first..];
    var blocks := Full(|rest|);
    FullSum(first, |rest|);
    assert all[..first + blocks] == all[..first] + rest[..blocks];
    CbcAppend(inverse, iv, all[..first], rest[..blocks]);
  }

  /** The complete blocks of a message. */
  function Whole(s: seq<Byte>): (r: Blocks)
    ensures |s| - 16 < |r| <= |s| && r == s[..|r|]
  {
    s[..Full(|s|)]
  }

  /** What a piece adds to the complete blocks and to what is kept. */
  lemma Piece(before: seq<Byte>, piece: seq<Byte>)
    ensures var all := before[|Whole(before)|..] + piece;
            && Whole(before + piece) == Whole(before) + Whole(all)
            && (before + piece)[|Whole(before + piece)|..] == all[|Whole(all)|..]
  {
    var all := before[|Whole(before)|..] + piece;
    assert before + piece == Whole(before) + all;
    FullSum(|Whole(before)|, |all|);
  }

  /** In whatever pieces a message comes, its complete blocks are decrypted as one; the release fails if it has others. */
  method DecryptAll(inverse: Cipher, iv: Block, pieces: seq<seq<Byte>>) returns (plain: seq<Byte>, complete: bool)
    requires forall k :: 0 <= k < |pieces| ==> |pieces[k]| <= SIZE_MAX - 15
    ensures plain == CbcDecrypt(inverse, iv, Whole(Concat(pieces)))
    ensures complete <==> |Concat(pieces)| % 16 == 0
  {
    hide CbcDecrypt;
    hide LastBlock;
    hide Whole;
    hide Full;
    var context := new Chaining(inverse, iv);
    plain := [];
    NoBlocks(inverse, iv);
    assert Whole([]) == [];
    var k := 0;
    while k < |pieces|
      invariant k <= |pieces| && context.Valid() && fresh(context) && fresh(context.buffer) && context.inverse == inverse
      invariant var done := Concat(pieces[..k]);
                plain == CbcDecrypt(inverse, iv, Whole(done)) && context.iv == LastBlock(iv, Whole(done))
                && context.buffer[..context.pos] == done[|Whole(done)|..]
    {
      var piece := pieces[k];
      ghost var done := Concat(pieces[..k]);
      assert pieces[..k + 1] == pieces[..k] + [piece];
      ConcatSnoc(pieces[..k], piece);
      Piece(done, piece);
      ghost var all := context.buffer[..context.pos] + piece;
      WholeIs(all);
      CbcAppend(inverse, iv, Whole(done), Whole(all));
      var out := new Byte[|piece| + 15];
      var ok, n := context.Update(piece, out, |piece| + 15);
      plain := plain + out[..n];
      k := k + 1;
    }
    assert pieces[..k] == pieces;
    WholeIs(Concat(pieces));
    complete := context.Release();
  }

  lemma WholeIs(s: seq<Byte>)
    ensures Whole(s) == s[..Full(|s|)]
  {
  }
}
