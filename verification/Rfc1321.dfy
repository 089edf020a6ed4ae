/**
 MD5 as section 3 of RFC 1321 describes it: padding, length, and four rounds of sixteen
 operations driven by tables; and HMAC over it, as section 2 of RFC 2104 describes it.
 */
module Rfc1321 {
  type octet = bv8
  type word = bv32

  datatype State = State(a: word, b: word, c: word, d: word)

  // ------------------------------------------------------------------ section 3.4

  function F(x: word, y: word, z: word): word { (x & y) | (!x & z) }

  function G(x: word, y: word, z: word): word { (x & z) | (y & !z) }

  function H(x: word, y: word, z: word): word { x ^ y ^ z }

  function I(x: word, y: word, z: word): word { y ^ (x | !z) }

  function Aux(round: nat, x: word, y: word, z: word): word {
    if round == 0 then F(x, y, z) else if round == 1 then G(x, y, z) else if round == 2 then H(x, y, z) else I(x, y, z)
  }

  function Rotated(x: word, s: nat): word
    requires s < 32
  {
    x.RotateLeft(s)
  }

  /** The word that operation `j` of a round adds. */
  function Index(round: nat, j: nat): (k: nat)
    ensures k < 16
  {
    (if round == 0 then j else if round == 1 then 1 + 5 * j else if round == 2 then 5 + 3 * j else 7 * j) % 16
  }

  function Shift(round: nat, j: nat): (s: nat)
    ensures 0 < s < 32
  {
    var k := j % 4;
    if round == 0 then 7 + 5 * k
    else if round == 1 then if k == 0 then 5 else if k == 1 then 9 else if k == 2 then 14 else 20
    else if round == 2 then if k == 0 then 4 else if k == 1 then 11 else if k == 2 then 16 else 23
    else if k == 0 then 6 else if k == 1 then 10 else if k == 2 then 15 else 21
  }

  /** The table T of section 3.4, counted from 0. */
  function Sine(i: nat): word {
    if i < 16 then
      (match i
       case 0 => 0xD76A_A478
       case 1 => 0xE8C7_B756
       case 2 => 0x2420_70DB
       case 3 => 0xC1BD_CEEE
       case 4 => 0xF57C_0FAF
       case 5 => 0x4787_C62A
       case 6 => 0xA830_4613
       case 7 => 0xFD46_9501
       case 8 => 0x6980_98D8
       case 9 => 0x8B44_F7AF
       case 10 => 0xFFFF_5BB1
       case 11 => 0x895C_D7BE
       case 12 => 0x6B90_1122
       case 13 => 0xFD98_7193
       case 14 => 0xA679_438E
       case _ => 0x49B4_0821)
    else if i < 32 then
      (match i
       case 16 => 0xF61E_2562
       case 17 => 0xC040_B340
       case 18 => 0x265E_5A51
       case 19 => 0xE9B6_C7AA
       case 20 => 0xD62F_105D
       case 21 => 0x0244_1453
       case 22 => 0xD8A1_E681
       case 23 => 0xE7D3_FBC8
       case 24 => 0x21E1_CDE6
       case 25 => 0xC337_07D6
       case 26 => 0xF4D5_0D87
       case 27 => 0x455A_14ED
       case 28 => 0xA9E3_E905
       case 29 => 0xFCEF_A3F8
       case 30 => 0x676F_02D9
       case _ => 0x8D2A_4C8A)
    else if i < 48 then
      (match i
       case 32 => 0xFFFA_3942
       case 33 => 0x8771_F681
       case 34 => 0x6D9D_6122
       case 35 => 0xFDE5_380C
       case 36 => 0xA4BE_EA44
       case 37 => 0x4BDE_CFA9
       case 38 => 0xF6BB_4B60
       case 39 => 0xBEBF_BC70
       case 40 => 0x289B_7EC6
       case 41 => 0xEAA1_27FA
       case 42 => 0xD4EF_3085
       case 43 => 0x0488_1D05
       case 44 => 0xD9D4_D039
       case 45 => 0xE6DB_99E5
       case 46 => 0x1FA2_7CF8
       case _ => 0xC4AC_5665)
    else
      (match i
       case 48 => 0xF429_2244
       case 49 => 0x432A_FF97
       case 50 => 0xAB94_23A7
       case 51 => 0xFC93_A039
       case 52 => 0x655B_59C3
       case 53 => 0x8F0C_CC92
       case 54 => 0xFFEF_F47D
       case 55 => 0x8584_5DD1
       case 56 => 0x6FA8_7E4F
       case 57 => 0xFE2C_E6E0
       case 58 => 0xA301_4314
       case 59 => 0x4E08_11A1
       case 60 => 0xF753_7E82
       case 61 => 0xBD3A_F235
       case 62 => 0x2AD7_D2BB
       case _ => 0xEB86_D391)
  }

  /** One operation: a = b + ((a + Aux(b,c,d) + X[k] + T[i]) <<< s). */
  function Operation(round: nat, a: word, b: word, c: word, d: word, x: word, s: nat, t: word): word
    requires s < 32
  {
    Plus(b, Rotated(Total(a, Aux(round, b, c, d), x, t), s))
  }

  function Plus(x: word, y: word): word {
    x + y
  }

  function Total(a: word, f: word, x: word, t: word): word {
    a + f + x + t
  }

  /** An operation and the change of roles after it: the new word takes b's place. */
  function Step(st: State, xs: seq<word>, round: nat, j: nat): State
    requires |xs| == 16
  {
    State(st.d, Operation(round, st.a, st.b, st.c, st.d, xs[Index(round, j)], Shift(round, j), Sine(16 * round + j)), st.b, st.c)
  }

  function Steps(st: State, xs: seq<word>, round: nat, j: nat): State
    requires |xs| == 16
  {
    if j == 0 then st else Step(Steps(st, xs, round, j - 1), xs, round, j - 1)
  }

  function Rounds(st: State, xs: seq<word>, n: nat): State
    requires |xs| == 16
  {
    if n == 0 then st else Steps(Rounds(st, xs, n - 1), xs, n - 1, 16)
  }

  /** Sixteen words, the low-order byte of each first. */
  function Word(b0: octet, b1: octet, b2: octet, b3: octet): word {
    b0 as word + 0x100 * (b1 as word) + 0x1_0000 * (b2 as word) + 0x100_0000 * (b3 as word)
  }

  function Words(block: seq<octet>): (xs: seq<word>)
    requires |block| == 64
    ensures |xs| == 16
  {
    seq(16, i requires 0 <= i < 16 => Word(block[4 * i], block[4 * i + 1], block[4 * i + 2], block[4 * i + 3]))
  }

  function Compress(st: State, block: seq<octet>): State
    requires |block| == 64
  {
    var r := Rounds(st, Words(block), 4);
    State(Plus(st.a, r.a), Plus(st.b, r.b), Plus(st.c, r.c), Plus(st.d, r.d))
  }

  // ------------------------------------------------------------------ sections 3.1 to 3.3 and 3.5

  const INIT := State(0x6745_2301, 0xEFCD_AB89, 0x98BA_DCFE, 0x1032_5476)

  /** The complete blocks of a message, from the state `st` on. */
  function Absorb(st: State, msg: seq<octet>): State
    decreases |msg|
  {
    if |msg| < 64 then st else Absorb(Compress(st, msg[..64]), msg[64..])
  }

  function Zeros(n: nat): (z: seq<octet>)
    ensures |z| == n
  {
    seq(n, _ => 0)
  }

  /** The low-order `n` bytes of `x`, low-order byte first. */
  function Octets(x: nat, n: nat): (s: seq<octet>)
    ensures |s| == n
  {
    if n == 0 then [] else [LowOctet(x % 256)] + Octets(x / 256, n - 1)
  }

  function LowOctet(x: nat): octet
    requires x < 256
  {
    x as octet
  }

  /** A 1 bit, 0 bits up to 448 modulo 512, and the bit count modulo 2^64. */
  function Padded(msg: seq<octet>): (p: seq<octet>)
    ensures |p| % 64 == 0
  {
    PaddedLength(|msg|);
    msg + [0x80] + Zeros((55 - |msg|) % 64) + Octets(8 * |msg|, 8)
  }

  lemma PaddedLength(n: nat)
    ensures (n + 1 + (55 - n) % 64 + 8) % 64 == 0
  {
  }

  function OutputWord(w: word): (s: seq<octet>)
    ensures |s| == 4
  {
    [(w % 0x100) as octet, (w / 0x100 % 0x100) as octet, (w / 0x1_0000 % 0x100) as octet, (w / 0x100_0000) as octet]
  }

  function Output(st: State): (s: seq<octet>)
    ensures |s| == 16
  {
    OutputWord(st.a) + OutputWord(st.b) + OutputWord(st.c) + OutputWord(st.d)
  }

  function Md5(msg: seq<octet>): (digest: seq<octet>)
    ensures |digest| == 16
  {
    Output(Absorb(INIT, Padded(msg)))
  }

  // ------------------------------------------------------------------ RFC 2104, section 2

  function Xor(s: seq<octet>, b: octet): (r: seq<octet>)
    ensures |r| == |s|
  {
    seq(|s|, i requires 0 <= i < |s| => s[i] ^ b)
  }

  /** The key, hashed if it is longer than a block, padded with zeros to a block. */
  function KeyBlock(key: seq<octet>): (k: seq<octet>)
    ensures |k| == 64
  {
    if |key| > 64 then Md5(key) + Zeros(48) else key + Zeros(64 - |key|)
  }

  function Hmac(key: seq<octet>, text: seq<octet>): (digest: seq<octet>)
    ensures |digest| == 16
  {
    var k := KeyBlock(key);
    Md5(Xor(k, 0x5C) + Md5(Xor(k, 0x36) + text))
  }

  /** Blocks may be absorbed in any number of goes. */
  lemma {:induction false} AbsorbConcat(st: State, m: seq<octet>, n: seq<octet>)
    requires |m| % 64 == 0
    ensures Absorb(st, m + n) == Absorb(Absorb(st, m), n)
    decreases |m|
  {
    hide Compress;
    if m == [] {
      assert m + n == n;
    } else {
      assert (m + n)[..64] == m[..64] && (m + n)[64..] == m[64..] + n;
      AbsorbConcat(Compress(st, m[..64]), m[64..], n);
    }
  }
}
