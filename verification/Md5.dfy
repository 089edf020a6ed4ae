/**
 The streaming MD5 context of components/common/tiny_md5.c, and HMAC on top of it.
 */
module Md5 {
  import opened Arith
  import opened Bytes
  import opened Rfc1321
  import opened Md5Block

  const INT_MAX := 0x7FFF_FFFF
  const U32 := 0x1_0000_0000
  const U64 := 0x1_0000_0000_0000_0000

  /** The macro GET_ULONG_LE. */
  function Get(b0: octet, b1: octet, b2: octet, b3: octet): word {
    (b0 as word) | ((b1 as word) << 8) | ((b2 as word) << 16) | ((b3 as word) << 24)
  }

  lemma GetIs(b0: octet, b1: octet, b2: octet, b3: octet)
    ensures Get(b0, b1, b2, b3) == Word(b0, b1, b2, b3)
  {
  }

  /** The macro PUT_ULONG_LE, for a state word. */
  function Put(w: word): (s: seq<octet>)
    ensures |s| == 4
  {
    [(w & 0xFF) as octet, ((w >> 8) & 0xFF) as octet, ((w >> 16) & 0xFF) as octet, ((w >> 24) & 0xFF) as octet]
  }

  lemma PutIs(w: word)
    ensures Put(w) == OutputWord(w)
  {
    assert w & 0xFF == w % 0x100;
    assert (w >> 8) & 0xFF == w / 0x100 % 0x100;
    assert (w >> 16) & 0xFF == w / 0x1_0000 % 0x100;
    assert (w >> 24) & 0xFF == w / 0x100_0000;
  }

  method Load(data: seq<octet>) returns (xs: seq<word>)
    requires |data| == 64
    ensures xs == Words(data)
  {
    xs := [];
    for i := 0 to 16
      invariant |xs| == i
      invariant forall k :: 0 <= k < i ==> xs[k] == Words(data)[k]
    {
      hide Get, Word;
      GetIs(data[4 * i], data[4 * i + 1], data[4 * i + 2], data[4 * i + 3]);
      xs := xs + [Get(data[4 * i], data[4 * i + 1], data[4 * i + 2], data[4 * i + 3])];
    }
  }

  /** md5_process. */
  method Process(st: State, data: seq<octet>) returns (r: State)
    requires |data| == 64
    ensures r == Compress(st, data)
  {
    hide Steps, Words, Plus;
    var xs := Load(data);
    var a, b, c, d := Round0(st.a, st.b, st.c, st.d, xs);
    assert State(a, b, c, d) == Rounds(st, xs, 1);
    a, b, c, d := Round1(a, b, c, d, xs);
    assert State(a, b, c, d) == Rounds(st, xs, 2);
    a, b, c, d := Round2(a, b, c, d, xs);
    assert State(a, b, c, d) == Rounds(st, xs, 3);
    a, b, c, d := Round3(a, b, c, d, xs);
    assert State(a, b, c, d) == Rounds(st, xs, 4);
    r := State(Plus(st.a, a), Plus(st.b, b), Plus(st.c, c), Plus(st.d, d));
  }

  // ------------------------------------------------------------------ streaming

  /** The complete blocks of a message, and the bytes past them. */
  function Base(msg: seq<octet>): (r: seq<octet>)
    ensures |r| % 64 == 0
  {
    msg[..|msg| - |msg| % 64]
  }

  function Rest(msg: seq<octet>): (r: seq<octet>)
    ensures |r| == |msg| % 64
  {
    msg[|msg| - |msg| % 64..]
  }

  /** Only the complete blocks are absorbed. */
  lemma AbsorbBase(st: State, msg: seq<octet>, more: seq<octet>)
    ensures Absorb(st, msg + more) == Absorb(Absorb(st, msg), Rest(msg) + more)
  {
    hide Compress;
    AbsorbConcat(st, Base(msg), Rest(msg));
    assert Base(msg) + Rest(msg) == msg;
    AbsorbConcat(st, Base(msg), Rest(msg) + more);
    assert Base(msg) + (Rest(msg) + more) == msg + more;
  }

  lemma RestAppend(msg: seq<octet>, x: seq<octet>)
    requires |msg| % 64 + |x| < 64
    ensures Rest(msg + x) == Rest(msg) + x
  {
    var n := |msg| % 64;
    assert |msg + x| % 64 == n + |x|;
    assert (msg + x)[|msg| - n..] == msg[|msg| - n..] + x;
  }

  /** More bytes that do not complete a block join the rest. */
  lemma RestGrows(st: State, msg: seq<octet>, x: seq<octet>)
    requires |Rest(msg)| + |x| < 64
    ensures Rest(msg + x) == Rest(msg) + x && Absorb(st, msg + x) == Absorb(st, msg)
  {
    hide Compress;
    AbsorbBase(st, msg, x);
    RestAppend(msg, x);
  }

  /** Bytes that complete a block are absorbed together with the rest. */
  lemma RestFills(st: State, msg: seq<octet>, x: seq<octet>)
    requires |Rest(msg)| + |x| == 64
    ensures Rest(msg + x) == [] && Absorb(st, msg + x) == Compress(Absorb(st, msg), Rest(msg) + x)
  {
    hide Compress;
    AbsorbBase(st, msg, x);
    OneBlock(Absorb(st, msg), Rest(msg) + x);
    assert |msg + x| % 64 == 0;
  }

  lemma OneBlock(st: State, block: seq<octet>)
    requires |block| == 64
    ensures Absorb(st, block) == Compress(st, block)
  {
    hide Compress;
    assert block[..64] == block && block[64..] == [];
  }

  method Copy(dst: array<octet>, at: nat, src: seq<octet>)
    requires at + |src| <= dst.Length
    modifies dst
    ensures dst[..] == old(dst[..at]) + src + old(dst[at + |src|..])
  {
    for i := 0 to |src|
      invariant dst[..at] == old(dst[..at]) && dst[at..at + i] == src[..i]
      invariant dst[at + i..] == old(dst[at + i..])
    {
      dst[at + i] := src[i];
      assert dst[at..at + i + 1] == dst[at..at + i] + [src[i]];
    }
    assert dst[..] == dst[..at] + dst[at..at + |src|] + dst[at + |src|..];
  }

  /** The two count words after `n` more bytes, with the carry noticed by a wrapped sum. */
  lemma CountCarries(total0: nat, total1: nat, count: nat, n: nat)
    requires total0 < U32 && total1 < U32 && total1 * U32 + total0 == count % U64 && 0 < n <= INT_MAX
    ensures var t0 := (total0 + n) % U32;
            var t1 := if t0 < n then (total1 + 1) % U32 else total1;
            t1 * U32 + t0 == (count + n) % U64
  {
    var t0 := (total0 + n) % U32;
    DivBounds(count, U64);
    var q := count / U64;
    assert count == q * U64 + count % U64;
    if total0 + n < U32 {
      assert t0 == total0 + n;
      DivUnique(count + n, U64, q);
    } else if total1 + 1 < U32 {
      assert t0 == total0 + n - U32;
      DivUnique(count + n, U64, q);
    } else {
      assert t0 == total0 + n - U32 && total1 == U32 - 1;
      DivUnique(count + n, U64, q + 1);
    }
  }

  lemma CountMod(total0: nat, total1: nat, count: nat)
    requires total1 * U32 + total0 == count % U64
    ensures total0 % 64 == count % 64
  {
    var k := count / U64 * 0x400_0000_0000_0000 + total1 * 0x400_0000;
    assert count == count / U64 * U64 + total1 * U32 + total0;
    assert count == k * 64 + total0;
    FloorUnique(count, 64, k + total0 / 64);
  }

  // ------------------------------------------------------------------ the length field

  /** Only the low-order bytes of a number count. */
  lemma {:induction false} OctetsLow(x: nat, y: nat, n: nat)
    ensures Octets(x + y * Pow256(n), n) == Octets(x, n)
    decreases n
  {
    hide LowOctet;
    if n > 0 {
      var p := Pow256(n - 1);
      MulAssoc(y, p);
      LowByte(x, y * p);
      OctetsLow(x / 256, y, n - 1);
    }
  }

  lemma MulAssoc(y: nat, p: nat)
    ensures y * (256 * p) == 256 * (y * p)
  {
  }

  /** A multiple of 256 leaves the lowest byte alone and adds to the rest. */
  lemma LowByte(x: nat, k: nat)
    ensures (x + 256 * k) % 256 == x % 256 && (x + 256 * k) / 256 == x / 256 + k
  {
  }

  lemma {:induction false} OctetsConcat(low: nat, high: nat, n: nat, m: nat)
    requires low < Pow256(n)
    ensures Octets(low + high * Pow256(n), n + m) == Octets(low, n) + Octets(high, m)
    decreases n
  {
    hide LowOctet;
    if n > 0 {
      var p := Pow256(n - 1);
      var x := low + high * Pow256(n);
      MulAssoc(high, p);
      LowByte(low, high * p);
      assert Octets(x, n + m) == [LowOctet(x % 256)] + Octets(x / 256, n - 1 + m);
      OctetsConcat(low / 256, high, n - 1, m);
      assert Octets(low, n) + Octets(high, m) == [LowOctet(low % 256)] + (Octets(low / 256, n - 1) + Octets(high, m));
    } else {
      assert Octets(low, 0) + Octets(high, m) == Octets(high, m);
    }
  }

  /** The two words of the bit count, made from the two words of the byte count. */
  lemma LengthWords(total0: nat, total1: nat, count: nat)
    requires total0 < U32 && total1 < U32 && total1 * U32 + total0 == count % U64
    ensures var high := total0 / 0x2000_0000 + total1 * 8 % U32;
            Octets(total0 * 8 % U32, 4) + Octets(high, 4) == Octets(8 * count, 8)
  {
    hide Octets;
    var high, low := total0 / 0x2000_0000 + total1 * 8 % U32, total0 * 8 % U32;
    var k := 8 * (count / U64) + total1 / 0x2000_0000;
    assert count == count / U64 * U64 + total1 * U32 + total0;
    assert total0 * 8 == total0 / 0x2000_0000 * U32 + low;
    assert total1 * 8 == total1 / 0x2000_0000 * U32 + total1 * 8 % U32;
    assert 8 * count == low + high * U32 + k * U64;
    Widths();
    OctetsLow(low + high * U32, k, 8);
    OctetsConcat(low, high, 4, 4);
  }

  /** The padding always reaches 56 modulo 64, and is never empty. */
  lemma PadLength(count: nat)
    ensures var last := count % 64;
            var padn := if last < 56 then 56 - last else 120 - last;
            padn - 1 == (55 - count) % 64
  {
    var last := count % 64;
    assert 55 - count == (55 - last) - 64 * (count / 64);
  }

  lemma PutState(st: State)
    ensures Put(st.a) + Put(st.b) + Put(st.c) + Put(st.d) == Output(st)
  {
    hide Put, OutputWord;
    PutIs(st.a);
    PutIs(st.b);
    PutIs(st.c);
    PutIs(st.d);
  }

  class Context {
    var total0: nat
    var total1: nat
    var state: State
    const buffer: array<octet>
    const ipad: array<octet>
    const opad: array<octet>
    ghost var msg: seq<octet>      // everything hashed since the last start
    ghost var key: seq<octet>      // the HMAC key

    ghost predicate Shaped()
      reads this
    {
      && buffer.Length == 64 && ipad.Length == 64 && opad.Length == 64
      && buffer != ipad && buffer != opad && ipad != opad
    }

    ghost predicate Counts(n: nat)
      reads this`total0, this`total1
    {
      total0 < U32 && total1 < U32 && total1 * U32 + total0 == n % U64
    }

    /** The state is the fold over the complete blocks, and the buffer starts with the rest. */
    ghost predicate Folded()
      reads this, buffer
    {
      Shaped() && state == Absorb(INIT, msg) && buffer[..|msg| % 64] == Rest(msg)
    }

    ghost predicate Valid()
      reads this, buffer
    {
      Shaped() && Folded() && Counts(|msg|)
    }

    constructor ()
      ensures Shaped() && fresh(buffer) && fresh(ipad) && fresh(opad)
    {
      buffer, ipad, opad := new octet[64], new octet[64], new octet[64];
      total0, total1, state := 0, 0, INIT;
    }

    /** tiny_md5_starts. */
    method Starts()
      requires Shaped()
      modifies this`total0, this`total1, this`state, this`msg
      ensures Valid() && msg == []
    {
      total0, total1 := 0, 0;
      state := INIT;
      msg := [];
    }

    /** Adds to the count, and tells how much the buffer holds. */
    method Count(ilen: nat) returns (left: nat)
      requires Counts(|msg|) && 0 < ilen <= INT_MAX
      modifies this`total0, this`total1
      ensures Counts(|msg| + ilen)
      ensures left == |msg| % 64
    {
      CountMod(total0, total1, |msg|);
      CountCarries(total0, total1, |msg|, ilen);
      left := total0 % 64;
      total0 := (total0 + ilen) % U32;
      if total0 < ilen {
        total1 := (total1 + 1) % U32;
      }
    }

    /** Completes the block in the buffer. */
    method FillUp(left: nat, x: seq<octet>)
      requires Folded() && left == |msg| % 64 && left + |x| == 64
      modifies this`state, this`msg, buffer
      ensures Folded() && msg == old(msg) + x && |msg| % 64 == 0
    {
      hide Compress, Absorb;
      Copy(buffer, left, x);
      assert buffer[..] == Rest(msg) + x;
      RestFills(INIT, msg, x);
      state := Process(state, buffer[..]);
      msg := msg + x;
    }

    /** Takes a block straight from the input. */
    method TakeBlock(x: seq<octet>)
      requires Folded() && |msg| % 64 == 0 && |x| == 64
      modifies this`state, this`msg
      ensures Folded() && msg == old(msg) + x && |msg| % 64 == 0
    {
      hide Compress, Absorb;
      RestFills(INIT, msg, x);
      assert Rest(msg) + x == x;
      state := Process(state, x);
      msg := msg + x;
    }

    /** Keeps bytes that do not complete a block. */
    method Keep(left: nat, x: seq<octet>)
      requires Folded() && left == |msg| % 64 && left + |x| < 64
      modifies this`msg, buffer
      ensures Folded() && msg == old(msg) + x
    {
      hide Compress, Absorb;
      Copy(buffer, left, x);
      assert buffer[..left + |x|] == Rest(msg) + x;
      RestGrows(INIT, msg, x);
      msg := msg + x;
    }

    /** tiny_md5_update: `ilen` bytes of `input`, or nothing for a length that is not positive. */
    method Update(input: seq<octet>, ilen: int)
      requires Valid() && ilen <= |input| && ilen <= INT_MAX
      modifies this`total0, this`total1, this`state, this`msg, buffer
      ensures Valid() && msg == old(msg) + if ilen <= 0 then [] else input[..ilen]
    {
      hide Folded, Counts;
      if ilen <= 0 {
        assert msg == msg + [];
        return;
      }
      label before:
      var left := Count(ilen);
      assert Folded() by {
        CountsApart@before();
      }
      var pos := 0;
      if left != 0 && ilen >= 64 - left {
        FillUp(left, input[..64 - left]);
        pos, left := 64 - left, 0;
      }
      while ilen - pos >= 64
        invariant 0 <= pos <= ilen && left == |msg| % 64 && (left == 0 || ilen - pos < 64 - left)
        invariant msg == old(msg) + input[..pos] && Folded()
        invariant Counts(|old(msg)| + ilen)
      {
        TakeBlock(input[pos..pos + 64]);
        pos := pos + 64;
      }
      if ilen - pos > 0 {
        Keep(left, input[pos..ilen]);
      }
      assert |msg| == |old(msg)| + ilen;
    }

    /** The length field, and how far the padding goes. */
    method Trailer() returns (padn: nat, msglen: seq<octet>)
      requires Counts(|msg|)
      ensures 0 < padn <= 64 && padn - 1 == (55 - |msg|) % 64 && msglen == Octets(8 * |msg|, 8)
    {
      hide Octets;
      LengthWords(total0, total1, |msg|);
      CountMod(total0, total1, |msg|);
      PadLength(|msg|);
      var high := total0 / 0x2000_0000 + total1 * 8 % U32;
      var low := total0 * 8 % U32;
      msglen := Octets(low, 4) + Octets(high, 4);
      var last := total0 % 64;
      padn := if last < 56 then 56 - last else 120 - last;
    }

    /** tiny_md5_finish: the digest of everything since the last start. */
    method Finish() returns (output: seq<octet>)
      requires Valid()
      modifies this`total0, this`total1, this`state, this`msg, buffer
      ensures output == Rfc1321.Md5(old(msg)) && Shaped()
    {
      hide Absorb, Output, Put, Octets, Counts;
      var padn, msglen := Trailer();
      var padding := [0x80] + Zeros(63);
      assert padding[..padn] == [0x80] + Zeros(padn - 1);
      Update(padding, padn);
      Update(msglen, 8);
      assert msg == Padded(old(msg));
      PutState(state);
      output := Put(state.a) + Put(state.b) + Put(state.c) + Put(state.d);
    }

    // ---------------------------------------------------------------- HMAC

    /** The inner hash has taken the inner pad and then `Text()`; the outer pad waits in opad. */
    ghost predicate Keyed()
      reads this, buffer, opad
    {
      Valid() && Xor(KeyBlock(key), 0x36) <= msg && opad[..] == Xor(KeyBlock(key), 0x5C)
    }

    ghost function Text(): seq<octet>
      requires Keyed()
      reads this, buffer, opad
    {
      msg[64..]
    }

    /** Both pads for a key of at most a block. */
    method SetPads(k: seq<octet>)
      requires Shaped() && |k| <= 64
      modifies ipad, opad
      ensures ipad[..] == Xor(k + Zeros(64 - |k|), 0x36) && opad[..] == Xor(k + Zeros(64 - |k|), 0x5C)
    {
      Fill(ipad, 0x36);
      Fill(opad, 0x5C);
      for i := 0 to |k|
        invariant forall j :: 0 <= j < 64 ==> ipad[j] == (if j < i then 0x36 ^ k[j] else 0x36)
        invariant forall j :: 0 <= j < 64 ==> opad[j] == (if j < i then 0x5C ^ k[j] else 0x5C)
      {
        ipad[i] := ipad[i] ^ k[i];
        opad[i] := opad[i] ^ k[i];
      }
      PadIs(ipad[..], k, 0x36);
      PadIs(opad[..], k, 0x5C);
    }

    /** tiny_md5_hmac_starts. */
    method HmacStarts(key: seq<octet>, keylen: int)
      requires Shaped() && keylen <= |key| && keylen <= INT_MAX
      modifies this, buffer, ipad, opad
      ensures Keyed() && Text() == [] && this.key == if keylen <= 0 then [] else key[..keylen]
    {
      hide Folded, Counts, Rfc1321.Md5, Xor;
      var k := if keylen <= 0 then [] else key[..keylen];
      this.key := k;
      if keylen > 64 {
        k := Digest(key, keylen);
      }
      SetPads(k);
      Starts();
      Update(ipad[..], 64);
      assert ipad[..64] == ipad[..];
      assert [] + ipad[..] == ipad[..];
    }

    /** tiny_md5_hmac_update. */
    method HmacUpdate(input: seq<octet>, ilen: int)
      requires Keyed() && ilen <= |input| && ilen <= INT_MAX
      modifies this`total0, this`total1, this`state, this`msg, buffer
      ensures Keyed() && Text() == old(Text()) + (if ilen <= 0 then [] else input[..ilen]) && key == old(key)
    {
      hide Folded, Counts, Xor, KeyBlock;
      Update(input, ilen);
    }

    /** tiny_md5_hmac_finish. */
    method HmacFinish() returns (output: seq<octet>)
      requires Keyed()
      modifies this`total0, this`total1, this`state, this`msg, buffer
      ensures output == Hmac(old(key), old(Text()))
    {
      hide Folded, Counts, Xor, KeyBlock, Rfc1321.Md5;
      ghost var text := Text();
      assert msg == Xor(KeyBlock(key), 0x36) + text;
      var inner := Finish();
      Starts();
      Update(opad[..], 64);
      Update(inner, 16);
      assert msg == opad[..] + inner;
      output := Finish();
    }

    /** The count plays no part in the fold. */
    twostate lemma CountsApart()
      requires old(Folded()) && buffer[..] == old(buffer[..]) && state == old(state) && msg == old(msg)
      ensures Folded()
    {
    }
  }

  method Fill(a: array<octet>, b: octet)
    modifies a
    ensures forall j :: 0 <= j < a.Length ==> a[j] == b
  {
    for i := 0 to a.Length
      invariant forall j :: 0 <= j < i ==> a[j] == b
    {
      a[i] := b;
    }
  }

  lemma PadIs(pad: seq<octet>, k: seq<octet>, b: octet)
    requires |pad| == 64 && |k| <= 64
    requires forall j :: 0 <= j < 64 ==> pad[j] == (if j < |k| then b ^ k[j] else b)
    ensures pad == Xor(k + Zeros(64 - |k|), b)
  {
    var block := k + Zeros(64 - |k|);
    forall j | 0 <= j < 64
      ensures pad[j] == Xor(block, b)[j]
    {
      XorCommutes(block[j], b);
    }
  }

  lemma XorCommutes(x: octet, b: octet)
    ensures x ^ b == b ^ x && 0 ^ b == b
  {
  }

  /** tiny_md5. */
  method Digest(input: seq<octet>, ilen: int) returns (output: seq<octet>)
    requires ilen <= |input| && ilen <= INT_MAX
    ensures output == Rfc1321.Md5(if ilen <= 0 then [] else input[..ilen])
  {
    var ctx := new Context();
    ctx.Starts();
    ctx.Update(input, ilen);
    assert ctx.msg == if ilen <= 0 then [] else input[..ilen];
    output := ctx.Finish();
  }
}
