/** Little-endian fields in byte strings. */
module Bytes {
  import opened Arith

  type byte = b: nat | b < 256

  function Pow256(n: nat): (p: nat)
    ensures p > 0
  {
    if n == 0 then 1 else 256 * Pow256(n - 1)
  }

  /** The low `n` bytes of `x`, least significant first. */
  function Le(x: nat, n: nat): (s: seq<byte>)
    ensures |s| == n
  {
    if n == 0 then [] else [x % 256] + Le(x / 256, n - 1)
  }

  function FromLe(s: seq<byte>): nat {
    if s == [] then 0 else s[0] + 256 * FromLe(s[1..])
  }

  /** Reading a field back gives what was written, cut to the width of the field. */
  lemma {:induction false} LeRoundTrip(x: nat, n: nat)
    ensures FromLe(Le(x, n)) == x % Pow256(n)
    decreases n
  {
    if n > 0 {
      LeRoundTrip(x / 256, n - 1);
      assert Le(x, n)[1..] == Le(x / 256, n - 1);
      LowDigit(x, Pow256(n - 1));
    }
  }

  /** The low digit of a number cut to some digits. */
  lemma LowDigit(x: nat, p: nat)
    requires p > 0
    ensures x % (256 * p) == x % 256 + 256 * ((x / 256) % p)
  {
    var y := x / 256;
    var q, r := y / p, y % p;
    DivBounds(y, p);
    assert q * (256 * p) == 256 * (q * p);
    FloorUnique(x, 256 * p, q);
  }

  /** Every field is some number's. */
  lemma {:induction false} FromLeRoundTrip(s: seq<byte>)
    ensures FromLe(s) < Pow256(|s|) && Le(FromLe(s), |s|) == s
    decreases |s|
  {
    if s != [] {
      FromLeRoundTrip(s[1..]);
      assert FromLe(s) / 256 == FromLe(s[1..]);
    }
  }

  lemma Widths()
    ensures Pow256(2) == 0x1_0000 && Pow256(4) == 0x1_0000_0000
    ensures Pow256(8) == 0x1_0000_0000_0000_0000
    ensures Pow256(16) == 0x1_0000_0000_0000_0000_0000_0000_0000_0000
  {
    assert Pow256(2) == 256 * Pow256(1);
    assert Pow256(4) == 256 * (256 * Pow256(2));
    assert Pow256(6) == 256 * (256 * Pow256(4));
    assert Pow256(8) == 256 * (256 * Pow256(6));
    assert Pow256(10) == 256 * (256 * Pow256(8));
    assert Pow256(12) == 256 * (256 * Pow256(10));
    assert Pow256(14) == 256 * (256 * Pow256(12));
    assert Pow256(16) == 256 * (256 * Pow256(14));
  }

  /** The little-endian number at `at`, each byte with its weight. */
  function FourAt(s: seq<byte>, at: nat): nat
    requires at + 4 <= |s|
  {
    var a: int, b: int, c: int, d: int := s[at], s[at + 1], s[at + 2], s[at + 3];
    a + 0x100 * b + 0x1_0000 * c + 0x100_0000 * d
  }

  function EightAt(s: seq<byte>, at: nat): nat
    requires at + 8 <= |s|
  {
    FourAt(s, at) + 0x1_0000_0000 * FourAt(s, at + 4)
  }

  lemma FourAtIs(s: seq<byte>, at: nat)
    requires at + 4 <= |s|
    ensures FromLe(s[at..at + 4]) == FourAt(s, at)
  {
    var t := s[at..at + 4];
    assert t[1..][1..] == t[2..] && t[2..][1..] == t[3..] && t[3..][1..] == [];
    assert FromLe(t[3..]) == t[3] && FromLe(t[2..]) == t[2] + 256 * FromLe(t[3..]);
    assert FromLe(t[1..]) == t[1] + 256 * FromLe(t[2..]);
  }

  lemma EightAtIs(s: seq<byte>, at: nat)
    requires at + 8 <= |s|
    ensures FromLe(s[at..at + 8]) == EightAt(s, at)
  {
    var t := s[at..at + 8];
    FromLeSplit(t, 4);
    Widths();
    assert t[..4] == s[at..at + 4] && t[4..] == s[at + 4..at + 8];
    FourAtIs(s, at);
    FourAtIs(s, at + 4);
  }

  lemma {:induction false} FromLeSplit(s: seq<byte>, n: nat)
    requires n <= |s|
    ensures FromLe(s) == FromLe(s[..n]) + Pow256(n) * FromLe(s[n..])
    decreases n
  {
    if n > 0 {
      FromLeSplit(s[1..], n - 1);
      assert s[..n][1..] == s[1..][..n - 1] && s[1..][n - 1..] == s[n..];
      Scaled(Pow256(n - 1), FromLe(s[n..]));
    } else {
      assert s[0..] == s;
    }
  }

  lemma Scaled(p: nat, x: nat)
    ensures 256 * (p * x) == (256 * p) * x
  {
  }

  /** Byte `i` of a field is the digit of weight 256 to the power of `i`. */
  lemma {:induction false} LeDigit(x: nat, n: nat, i: nat)
    requires i < n
    ensures Le(x, n)[i] == x / Pow256(i) % 256
    decreases i
  {
    if i > 0 {
      LeDigit(x / 256, n - 1, i - 1);
      DivDiv(x, Pow256(i - 1));
    }
  }

  lemma DivDiv(x: nat, p: nat)
    requires p > 0
    ensures x / 256 / p == x / (256 * p)
  {
    var y := x / 256;
    var q, r := y / p, y % p;
    DivBounds(y, p);
    assert q * (256 * p) == 256 * (q * p);
    FloorUnique(x, 256 * p, q);
  }

  /** The bytes of a buffer after `bytes` were stored at `off`. */
  function Stored(buffer: seq<byte>, off: nat, bytes: seq<byte>): (r: seq<byte>)
    requires off + |bytes| <= |buffer|
    ensures |r| == |buffer| && r[off..off + |bytes|] == bytes
    ensures forall i :: 0 <= i < |buffer| && !(off <= i < off + |bytes|) ==> r[i] == buffer[i]
  {
    buffer[..off] + bytes + buffer[off + |bytes|..]
  }

  /** A store leaves fields that it does not touch. */
  lemma StoredApart(buffer: seq<byte>, off: nat, bytes: seq<byte>, lo: nat, hi: nat)
    requires off + |bytes| <= |buffer| && lo <= hi <= |buffer|
    requires hi <= off || off + |bytes| <= lo
    ensures Stored(buffer, off, bytes)[lo..hi] == buffer[lo..hi]
  {
  }
}
