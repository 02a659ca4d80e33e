/** The BLAKE2s state: bytes are buffered, and blocks compressed once it is known that more follow. */
module Blake2s {
  import opened Bits
  import opened Options
  import opened Words
  import opened Blake2sSpec

  class State {
    const F: Compression
    var h: Chain
    var t0: Word
    var t1: Word
    var f0: Word
    var f1: Word
    const buf: array<Byte>
    var buflen: nat
    var outlen: nat
    var lastNode: bool
    /** The initial chain value, everything passed to Update so far, and the number of blocks compressed. */
    ghost var start: Chain
    ghost var fed: seq<Byte>
    ghost var done: nat

    /** What is not compressed yet is in the buffer; once there was data the buffer is never empty. */
    ghost predicate Valid()
      reads this, buf
    {
      && buf.Length == BLOCKBYTES && buflen <= BLOCKBYTES
      && |fed| == BLOCKBYTES * done + buflen && (fed != [] ==> buflen > 0)
      && buf[..buflen] == fed[BLOCKBYTES * done..] && Through(fed)
    }

    /** The first `done` blocks of `data` are compressed, and their bytes counted in two words. */
    ghost predicate Through(data: seq<Byte>)
      reads `h, `t0, `t1, `f0, `f1, `done, `start
    {
      && done < |Blocks(data)| && h == ChainAfter(F, start, Blocks(data), done)
      && t0 == Low(BLOCKBYTES * done) && t1 == High(BLOCKBYTES * done) && f0 == 0 && f1 == 0
    }

    /** blake2s_init_param. */
    constructor (F: Compression, p: Param)
      ensures Valid() && this.F == F && start == Start(p) && fed == [] && !lastNode && outlen == p.digestLength
      ensures fresh(buf)
    {
      this.F := F;
      h := Start(p);
      t0, t1, f0, f1 := 0, 0, 0, 0;
      buf := new Byte[BLOCKBYTES](_ => 0);
      buflen := 0;
      outlen := p.digestLength;
      lastNode := false;
      start := Start(p);
      fed := [];
      done := 0;
    }

    twostate predicate SameSetup()
      reads this
    {
      start == old(start) && outlen == old(outlen) && lastNode == old(lastNode)
    }

    method IncrementCounter(inc: Word)
      modifies `t0, `t1
      ensures forall n: nat :: old(t0) == Low(n) && old(t1) == High(n) ==> t0 == Low(n + inc) && t1 == High(n + inc)
    {
      forall n: nat | t0 == Low(n) && t1 == High(n)
        ensures Plus(t0, inc) == Low(n + inc) && Plus(t1, if Plus(t0, inc) < inc then 1 else 0) == High(n + inc)
      {
        CountOn(n, inc);
      }
      t0 := Plus(t0, inc);
      t1 := Plus(t1, if t0 < inc then 1 else 0);
    }

    method Compress(block: seq<Byte>)
      modifies `h
      ensures h == F(old(h), block, t0, t1, f0, f1)
    {
      h := F(h, block, t0, t1, f0, f1);
    }

    /** Copies bytes into the buffer. */
    method CopyIn(at: nat, bytes: seq<Byte>)
      requires at + |bytes| <= buf.Length
      modifies buf
      ensures buf[..] == old(buf[..at]) + bytes + old(buf[at + |bytes|..])
    {
      forall i | 0 <= i < |bytes| {
        buf[at + i] := bytes[i];
      }
    }

    /** Counts and compresses a block that is not the last one. */
    method NextBlock(block: seq<Byte>, ghost data: seq<Byte>)
      requires Through(data) && BLOCKBYTES * (done + 1) < |data|
      requires block == data[BLOCKBYTES * done..BLOCKBYTES * (done + 1)]
      modifies `h, `t0, `t1, `done
      ensures Through(data) && done == old(done) + 1
    {
      BlockAt(data, done);
      IncrementCounter(BLOCKBYTES);
      Compress(block);
      done := done + 1;
    }

    /** With more data than fits: compresses the filled buffer, then whole blocks, but not the last bytes. */
    method CompressMost(input: seq<Byte>, left: nat) returns (pos: nat)
      requires Valid() && left == buflen && |input| > BLOCKBYTES - left
      modifies `h, `t0, `t1, `done, `buflen, buf
      ensures Through(fed + input) && buflen == 0
      ensures pos < |input| && |input| - pos <= BLOCKBYTES && BLOCKBYTES * done == |fed| + pos
    {
      hide Through;
      ghost var whole := fed + input;
      Grown(input);
      var fill := BLOCKBYTES - left;
      buflen := 0;
      SliceAcross(fed, input, BLOCKBYTES * done, BLOCKBYTES);
      CopyIn(left, input[..fill]);
      assert buf[..] == whole[BLOCKBYTES * done..BLOCKBYTES * (done + 1)];
      NextBlock(buf[..], whole);
      pos := fill;
      while |input| - pos > BLOCKBYTES
        modifies `h, `t0, `t1, `done
        invariant fill <= pos < |input| && BLOCKBYTES * done == |fed| + pos && Through(whole)
      {
        SliceBehind(fed, input, pos, pos + BLOCKBYTES);
        NextBlock(input[pos..pos + BLOCKBYTES], whole);
        pos := pos + BLOCKBYTES;
      }
    }

    lemma RestGrows(m: seq<Byte>, x: seq<Byte>, at: nat)
      requires at <= |m|
      ensures (m + x)[at..] == m[at..] + x
    {
    }

    /** What is left is kept behind what the buffer holds. */
    method Keep(rest: seq<Byte>)
      requires buf.Length == BLOCKBYTES && buflen + |rest| <= BLOCKBYTES
      modifies `buflen, buf
      ensures buflen == old(buflen) + |rest| && buf[..buflen] == old(buf[..buflen]) + rest
    {
      CopyIn(buflen, rest);
      buflen := buflen + |rest|;
      assert buf[..buflen] == buf[..][..buflen];
    }

    /** Compresses what is not the last block; from `pos` on the input fits the buffer. */
    method Advance(input: seq<Byte>) returns (pos: nat)
      requires Valid() && |input| > 0
      modifies `h, `t0, `t1, `done, `buflen, buf
      ensures Through(fed + input) && pos <= |input| && BLOCKBYTES * done <= |fed| + |input|
      ensures 0 < buflen + (|input| - pos) <= BLOCKBYTES
      ensures buf[..buflen] + input[pos..] == (fed + input)[BLOCKBYTES * done..]
    {
      hide Through;
      if |input| > BLOCKBYTES - buflen {
        pos := CompressMost(input, buflen);
        SliceBehind(fed, input, pos, |input|);
      } else {
        pos := 0;
        Grown(input);
        RestGrows(fed, input, BLOCKBYTES * done);
      }
    }

    /** Passes on data. A full buffer is compressed only when more data is there, so never the last block. */
    method Update(input: seq<Byte>)
      requires Valid()
      modifies this, buf
      ensures Valid() && SameSetup() && fed == old(fed) + input
    {
      hide Through;
      hide Blocks;
      if |input| > 0 {
        var pos := Advance(input);
        Keep(input[pos..]);
        fed := fed + input;
      } else {
        assert fed + input == fed;
      }
    }

    /** More data does not change what was compressed. */
    lemma Grown(input: seq<Byte>)
      requires Through(fed) && (BLOCKBYTES * done < |fed| || done == 0)
      ensures Through(fed + input)
    {
      BlocksGrow(fed, input, done);
      BlocksNotEmpty(fed + input);
      if done > 0 {
        BlockAt(fed + input, done);
      }
      ChainSame(F, start, Blocks(fed), Blocks(fed + input), done);
    }

    /** Zeros behind what the buffer holds. */
    method PadBuffer()
      requires buf.Length == BLOCKBYTES && buflen <= BLOCKBYTES
      modifies buf
      ensures buf[..] == Padded(old(buf[..buflen]))
    {
      CopyIn(buflen, seq(BLOCKBYTES - buflen, _ => 0));
    }

    /** The bytes of an output that lie in the 32 bytes of the chain value. */
    static function Room(outlen: nat): nat {
      if outlen <= OUTBYTES then outlen else OUTBYTES
    }

    /**
      The digest of all data passed in; a state gives it once, and only into enough room. The copy takes `outlen'` bytes
      from 32: the last `beyond` ones would come from behind them.
     */
    method Final(outlen': nat) returns (out: Option<seq<Byte>>, beyond: nat)
      requires f0 == 0 ==> Valid()
      requires buf.Length == BLOCKBYTES
      modifies this, buf
      ensures out.None? <==> outlen' < outlen || old(f0) != 0
      ensures out.Some? ==>
                && out.value == Digest(F, start, old(fed), lastNode)[..Room(outlen')] && f0 == ALL_ONES
                && |out.value| + beyond == outlen' && (beyond > 0 <==> outlen' > OUTBYTES)
                && forall i {:trigger h[i]} :: 0 <= i < 8 && 4 * i + 4 <= |out.value| ==> h[i] == Quad(out.value, 4 * i)
      ensures SameSetup() && (out.None? ==> beyond == 0 && f0 == old(f0) && h == old(h))
    {
      hide Blocks;
      hide Padded;
      hide ChainAfter;
      hide Stored;
      if outlen' < outlen {
        return None, 0;
      }
      if f0 != 0 {
        return None, 0;
      }
      ghost var data := fed;
      LastBlock(data);
      IncrementCounter(buflen);
      if lastNode {
        f1 := ALL_ONES;
      }
      f0 := ALL_ONES;
      PadBuffer();
      Compress(buf[..]);
      out, beyond := Some(Stored(h)[..Room(outlen')]), outlen' - Room(outlen');
      ShownWords(h, Room(outlen'));
    }

    /** The bytes given out hold the words of the chain value. */
    lemma ShownWords(h: Chain, n: nat)
      requires n <= OUTBYTES
      ensures forall i {:trigger h[i]} :: 0 <= i < 8 && 4 * i + 4 <= n ==> h[i] == Quad(Stored(h)[..n], 4 * i)
    {
      hide Stored;
      forall i {:trigger h[i]} | 0 <= i < 8 && 4 * i + 4 <= n ensures h[i] == Quad(Stored(h)[..n], 4 * i) {
        StoredWord(h, i);
      }
    }

    lemma LastBlock(data: seq<Byte>)
      requires Valid() && data == fed
      ensures |Blocks(data)| == done + 1 && Blocks(data)[done] == Padded(data[BLOCKBYTES * done..])
      ensures BLOCKBYTES * done + buflen == |data|
    {
      BlockAt(data, done);
    }
  }

  /** The digest of a message, of `nn` bytes, under a key of at most 32 bytes or none. */
  function Hash(F: Compression, nn: nat, key: seq<Byte>, message: seq<Byte>): seq<Byte>
    requires 1 <= nn <= OUTBYTES && |key| <= KEYBYTES
  {
    Digest(F, Start(Param(nn, |key|, 1, 1, 0, 0, 0)), Keyed(key, message), false)[..nn]
  }

  /** blake2s_init. */
  method Init(F: Compression, nn: nat) returns (s: State?)
    ensures s == null <==> nn == 0 || nn > OUTBYTES
    ensures s != null ==>
              && fresh(s) && fresh(s.buf) && s.Valid() && s.F == F && s.outlen == nn && !s.lastNode
              && s.start == Start(Param(nn, 0, 1, 1, 0, 0, 0)) && s.fed == []
  {
    if nn == 0 || nn > OUTBYTES {
      return null;
    }
    s := new State(F, Param(nn, 0, 1, 1, 0, 0, 0));
  }

  /** blake2s_init_key: the key, padded to a block, is the first data. */
  method InitKey(F: Compression, nn: nat, key: seq<Byte>) returns (s: State?)
    ensures s == null <==> nn == 0 || nn > OUTBYTES || |key| == 0 || |key| > KEYBYTES
    ensures s != null ==>
              && fresh(s) && fresh(s.buf) && s.Valid() && s.F == F && s.outlen == nn && !s.lastNode
              && s.start == Start(Param(nn, |key|, 1, 1, 0, 0, 0)) && s.fed == Padded(key)
  {
    if nn == 0 || nn > OUTBYTES {
      return null;
    }
    if |key| == 0 || |key| > KEYBYTES {
      return null;
    }
    s := new State(F, Param(nn, |key|, 1, 1, 0, 0, 0));
    s.Update(Padded(key));
  }

  /** blake2s: everything at once. */
  method OneShot(F: Compression, nn: nat, input: seq<Byte>, key: seq<Byte>) returns (out: Option<seq<Byte>>)
    ensures out.None? <==> nn == 0 || nn > OUTBYTES || |key| > KEYBYTES
    ensures out.Some? ==> out.value == Hash(F, nn, key, input)
  {
    if nn == 0 || nn > OUTBYTES {
      return None;
    }
    if |key| > KEYBYTES {
      return None;
    }
    var s: State?;
    if |key| > 0 {
      s := InitKey(F, nn, key);
    } else {
      s := Init(F, nn);
    }
    s.Update(input);
    assert |key| == 0 ==> [] + input == input;
    var beyond;
    out, beyond := s.Final(nn);
    assert beyond == 0;
  }

  /** One call of Update for every chunk. */
  method FeedAll(s: State, chunks: seq<seq<Byte>>)
    requires s.Valid()
    modifies s, s.buf
    ensures s.Valid() && s.fed == old(s.fed) + Concat(chunks)
    ensures s.start == old(s.start) && s.outlen == old(s.outlen) && s.lastNode == old(s.lastNode)
  {
    hide Concat;
    var i := 0;
    NothingJoined(s.fed);
    assert chunks[..0] == [];
    while i < |chunks|
      invariant 0 <= i <= |chunks| && s.Valid() && s.fed == old(s.fed) + Concat(chunks[..i])
      invariant s.start == old(s.start) && s.outlen == old(s.outlen) && s.lastNode == old(s.lastNode)
    {
      s.Update(chunks[i]);
      OneMore(old(s.fed), chunks, i);
      i := i + 1;
    }
    assert chunks[..i] == chunks;
  }

  lemma NothingJoined(before: seq<Byte>)
    ensures before + Concat([]) == before
  {
  }

  lemma OneMore(before: seq<Byte>, chunks: seq<seq<Byte>>, i: nat)
    requires i < |chunks|
    ensures before + Concat(chunks[..i + 1]) == before + Concat(chunks[..i]) + chunks[i]
  {
    assert chunks[..i + 1][..i] == chunks[..i];
  }

  /** For every way to split a message into updates, the digest is that of the whole message. */
  method HashChunks(F: Compression, nn: nat, chunks: seq<seq<Byte>>, key: seq<Byte>) returns (out: Option<seq<Byte>>)
    ensures out.None? <==> nn == 0 || nn > OUTBYTES || |key| > KEYBYTES
    ensures out.Some? ==> out.value == Hash(F, nn, key, Concat(chunks))
  {
    var s: State?;
    if |key| > 0 {
      s := InitKey(F, nn, key);
    } else {
      s := Init(F, nn);
    }
    if s == null {
      return None;
    }
    ghost var before := s.fed;
    FeedAll(s, chunks);
    assert |key| == 0 ==> [] + Concat(chunks) == Concat(chunks);
    var beyond;
    out, beyond := s.Final(nn);
    assert beyond == 0;
  }
}
