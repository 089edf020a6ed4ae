/**
 md5_process: the sixty-four operations written out, against the table-driven rounds.
 */
module Md5Block {
  import opened Rfc1321

  /** The macro S. */
  function S(x: word, n: nat): word
    requires 0 < n < 32
  {
    (x << n) | (x >> (32 - n))
  }

  /** The macro F, as defined for each of the four rounds. */
  function FMacro(round: nat, x: word, y: word, z: word): word {
    if round == 0 then z ^ (x & (y ^ z))
    else if round == 1 then y ^ (z & (x ^ y))
    else if round == 2 then x ^ y ^ z
    else y ^ (x | !z)
  }

  function Increased(a: word, f: word, x: word, t: word): word {
    a + (f + x + t)
  }

  /** The macro P. */
  function P(round: nat, a: word, b: word, c: word, d: word, x: word, s: nat, t: word): word
    requires 0 < s < 32
  {
    Plus(S(Increased(a, FMacro(round, b, c, d), x, t), s), b)
  }

  predicate Used(s: nat) {
    s in {4, 5, 6, 7, 9, 10, 11, 12, 14, 15, 16, 17, 20, 21, 22, 23}
  }

  /** The two shifts of S make up a rotation. */
  lemma SRotates(x: word, s: nat)
    requires Used(s)
    ensures 0 < s < 32 && S(x, s) == Rotated(x, s)
  {
    if s == 4 {
      assert (x << 4) | (x >> 28) == x.RotateLeft(4);
    } else if s == 5 {
      assert (x << 5) | (x >> 27) == x.RotateLeft(5);
    } else if s == 6 {
      assert (x << 6) | (x >> 26) == x.RotateLeft(6);
    } else if s == 7 {
      assert (x << 7) | (x >> 25) == x.RotateLeft(7);
    } else if s == 9 {
      assert (x << 9) | (x >> 23) == x.RotateLeft(9);
    } else if s == 10 {
      assert (x << 10) | (x >> 22) == x.RotateLeft(10);
    } else if s == 11 {
      assert (x << 11) | (x >> 21) == x.RotateLeft(11);
    } else if s == 12 {
      assert (x << 12) | (x >> 20) == x.RotateLeft(12);
    } else if s == 14 {
      assert (x << 14) | (x >> 18) == x.RotateLeft(14);
    } else if s == 15 {
      assert (x << 15) | (x >> 17) == x.RotateLeft(15);
    } else if s == 16 {
      assert (x << 16) | (x >> 16) == x.RotateLeft(16);
    } else if s == 17 {
      assert (x << 17) | (x >> 15) == x.RotateLeft(17);
    } else if s == 20 {
      assert (x << 20) | (x >> 12) == x.RotateLeft(20);
    } else if s == 21 {
      assert (x << 21) | (x >> 11) == x.RotateLeft(21);
    } else if s == 22 {
      assert (x << 22) | (x >> 10) == x.RotateLeft(22);
    } else if s == 23 {
      assert (x << 23) | (x >> 9) == x.RotateLeft(23);
    }
  }

  /** The rewritten F and G are those of the standard. */
  lemma FMacroIs(round: nat, x: word, y: word, z: word)
    ensures FMacro(round, x, y, z) == Aux(round, x, y, z)
  {
    assert z ^ (x & (y ^ z)) == F(x, y, z);
    assert y ^ (z & (x ^ y)) == G(x, y, z);
  }

  lemma IncreasedIs(a: word, f: word, x: word, t: word)
    ensures Increased(a, f, x, t) == Total(a, f, x, t)
  {
  }

  lemma PlusCommutes(x: word, y: word)
    ensures Plus(x, y) == Plus(y, x)
  {
  }

  lemma PIs(round: nat, a: word, b: word, c: word, d: word, x: word, s: nat, t: word)
    requires Used(s)
    ensures 0 < s < 32 && P(round, a, b, c, d, x, s, t) == Operation(round, a, b, c, d, x, s, t)
  {
    hide S, Rotated, FMacro, Aux, Increased, Total, Plus;
    FMacroIs(round, b, c, d);
    IncreasedIs(a, FMacro(round, b, c, d), x, t);
    SRotates(Total(a, Aux(round, b, c, d), x, t), s);
    PlusCommutes(b, Rotated(Total(a, Aux(round, b, c, d), x, t), s));
  }

  /** Four operations from `st` on, in the order of the code: on A, on D, on C and on B. */
  function Four(st: State, xs: seq<word>, round: nat, j: nat): State
    requires |xs| == 16
  {
    var a := P(round, st.a, st.b, st.c, st.d, xs[Index(round, j)], Shift(round, j), Sine(16 * round + j));
    var d := P(round, st.d, a, st.b, st.c, xs[Index(round, j + 1)], Shift(round, j + 1), Sine(16 * round + j + 1));
    var c := P(round, st.c, d, a, st.b, xs[Index(round, j + 2)], Shift(round, j + 2), Sine(16 * round + j + 2));
    var b := P(round, st.b, c, d, a, xs[Index(round, j + 3)], Shift(round, j + 3), Sine(16 * round + j + 3));
    State(a, b, c, d)
  }

  lemma StepIs(st: State, xs: seq<word>, round: nat, j: nat)
    requires |xs| == 16
    ensures Step(st, xs, round, j) ==
            State(st.d, P(round, st.a, st.b, st.c, st.d, xs[Index(round, j)], Shift(round, j), Sine(16 * round + j)), st.b, st.c)
  {
    hide P, Operation, Index, Sine;
    assert Used(Shift(round, j));
    PIs(round, st.a, st.b, st.c, st.d, xs[Index(round, j)], Shift(round, j), Sine(16 * round + j));
  }

  /** After four operations every word is back in its own place. */
  lemma FourSteps(st: State, xs: seq<word>, round: nat, j: nat)
    requires |xs| == 16
    ensures Four(Steps(st, xs, round, j), xs, round, j) == Steps(st, xs, round, j + 4)
  {
    hide P, Step, Index, Shift, Sine;
    var s0 := Steps(st, xs, round, j);
    var s1, s2 := Steps(st, xs, round, j + 1), Steps(st, xs, round, j + 2);
    var s3, s4 := Steps(st, xs, round, j + 3), Steps(st, xs, round, j + 4);
    StepIs(s0, xs, round, j);
    StepIs(s1, xs, round, j + 1);
    StepIs(s2, xs, round, j + 2);
    StepIs(s3, xs, round, j + 3);
    assert s1 == Step(s0, xs, round, j) && s2 == Step(s1, xs, round, j + 1);
    assert s3 == Step(s2, xs, round, j + 2) && s4 == Step(s3, xs, round, j + 3);
  }

  method Round0From0(a0: word, b0: word, c0: word, d0: word, xs: seq<word>) returns (a: word, b: word, c: word, d: word)
    requires |xs| == 16
    ensures State(a, b, c, d) == Four(State(a0, b0, c0, d0), xs, 0, 0)
  {
    hide P;
    a, b, c, d := a0, b0, c0, d0;
    a := P(0, a, b, c, d, xs[0], 7, 0xD76A_A478);
    d := P(0, d, a, b, c, xs[1], 12, 0xE8C7_B756);
    c := P(0, c, d, a, b, xs[2], 17, 0x2420_70DB);
    b := P(0, b, c, d, a, xs[3], 22, 0xC1BD_CEEE);
  }

  method Round0From4(a0: word, b0: word, c0: word, d0: word, xs: seq<word>) returns (a: word, b: word, c: word, d: word)
    requires |xs| == 16
    ensures State(a, b, c, d) == Four(State(a0, b0, c0, d0), xs, 0, 4)
  {
    hide P;
    a, b, c, d := a0, b0, c0, d0;
    a := P(0, a, b, c, d, xs[4], 7, 0xF57C_0FAF);
    d := P(0, d, a, b, c, xs[5], 12, 0x4787_C62A);
    c := P(0, c, d, a, b, xs[6], 17, 0xA830_4613);
    b := P(0, b, c, d, a, xs[7], 22, 0xFD46_9501);
  }

  method Round0From8(a0: word, b0: word, c0: word, d0: word, xs: seq<word>) returns (a: word, b: word, c: word, d: word)
    requires |xs| == 16
    ensures State(a, b, c, d) == Four(State(a0, b0, c0, d0), xs, 0, 8)
  {
    hide P;
    a, b, c, d := a0, b0, c0, d0;
    a := P(0, a, b, c, d, xs[8], 7, 0x6980_98D8);
    d := P(0, d, a, b, c, xs[9], 12, 0x8B44_F7AF);
    c := P(0, c, d, a, b, xs[10], 17, 0xFFFF_5BB1);
    b := P(0, b, c, d, a, xs[11], 22, 0x895C_D7BE);
  }

  method Round0From12(a0: word, b0: word, c0: word, d0: word, xs: seq<word>) returns (a: word, b: word, c: word, d: word)
    requires |xs| == 16
    ensures State(a, b, c, d) == Four(State(a0, b0, c0, d0), xs, 0, 12)
  {
    hide P;
    a, b, c, d := a0, b0, c0, d0;
    a := P(0, a, b, c, d, xs[12], 7, 0x6B90_1122);
    d := P(0, d, a, b, c, xs[13], 12, 0xFD98_7193);
    c := P(0, c, d, a, b, xs[14], 17, 0xA679_438E);
    b := P(0, b, c, d, a, xs[15], 22, 0x49B4_0821);
  }

  method Round0(a0: word, b0: word, c0: word, d0: word, xs: seq<word>) returns (a: word, b: word, c: word, d: word)
    requires |xs| == 16
    ensures State(a, b, c, d) == Steps(State(a0, b0, c0, d0), xs, 0, 16)
  {
    hide Four, Steps;
    ghost var st := State(a0, b0, c0, d0);
    NoSteps(st, xs, 0);
    a, b, c, d := Round0From0(a0, b0, c0, d0, xs);
    FourSteps(st, xs, 0, 0);
    a, b, c, d := Round0From4(a, b, c, d, xs);
    FourSteps(st, xs, 0, 4);
    a, b, c, d := Round0From8(a, b, c, d, xs);
    FourSteps(st, xs, 0, 8);
    a, b, c, d := Round0From12(a, b, c, d, xs);
    FourSteps(st, xs, 0, 12);
  }

  method Round1From0(a0: word, b0: word, c0: word, d0: word, xs: seq<word>) returns (a: word, b: word, c: word, d: word)
    requires |xs| == 16
    ensures State(a, b, c, d) == Four(State(a0, b0, c0, d0), xs, 1, 0)
  {
    hide P;
    a, b, c, d := a0, b0, c0, d0;
    a := P(1, a, b, c, d, xs[1], 5, 0xF61E_2562);
    d := P(1, d, a, b, c, xs[6], 9, 0xC040_B340);
    c := P(1, c, d, a, b, xs[11], 14, 0x265E_5A51);
    b := P(1, b, c, d, a, xs[0], 20, 0xE9B6_C7AA);
  }

  method Round1From4(a0: word, b0: word, c0: word, d0: word, xs: seq<word>) returns (a: word, b: word, c: word, d: word)
    requires |xs| == 16
    ensures State(a, b, c, d) == Four(State(a0, b0, c0, d0), xs, 1, 4)
  {
    hide P;
    a, b, c, d := a0, b0, c0, d0;
    a := P(1, a, b, c, d, xs[5], 5, 0xD62F_105D);
    d := P(1, d, a, b, c, xs[10], 9, 0x0244_1453);
    c := P(1, c, d, a, b, xs[15], 14, 0xD8A1_E681);
    b := P(1, b, c, d, a, xs[4], 20, 0xE7D3_FBC8);
  }

  method Round1From8(a0: word, b0: word, c0: word, d0: word, xs: seq<word>) returns (a: word, b: word, c: word, d: word)
    requires |xs| == 16
    ensures State(a, b, c, d) == Four(State(a0, b0, c0, d0), xs, 1, 8)
  {
    hide P;
    a, b, c, d := a0, b0, c0, d0;
    a := P(1, a, b, c, d, xs[9], 5, 0x21E1_CDE6);
    d := P(1, d, a, b, c, xs[14], 9, 0xC337_07D6);
    c := P(1, c, d, a, b, xs[3], 14, 0xF4D5_0D87);
    b := P(1, b, c, d, a, xs[8], 20, 0x455A_14ED);
  }

  method Round1From12(a0: word, b0: word, c0: word, d0: word, xs: seq<word>) returns (a: word, b: word, c: word, d: word)
    requires |xs| == 16
    ensures State(a, b, c, d) == Four(State(a0, b0, c0, d0), xs, 1, 12)
  {
    hide P;
    a, b, c, d := a0, b0, c0, d0;
    a := P(1, a, b, c, d, xs[13], 5, 0xA9E3_E905);
    d := P(1, d, a, b, c, xs[2], 9, 0xFCEF_A3F8);
    c := P(1, c, d, a, b, xs[7], 14, 0x676F_02D9);
    b := P(1, b, c, d, a, xs[12], 20, 0x8D2A_4C8A);
  }

  method Round1(a0: word, b0: word, c0: word, d0: word, xs: seq<word>) returns (a: word, b: word, c: word, d: word)
    requires |xs| == 16
    ensures State(a, b, c, d) == Steps(State(a0, b0, c0, d0), xs, 1, 16)
  {
    hide Four, Steps;
    ghost var st := State(a0, b0, c0, d0);
    NoSteps(st, xs, 1);
    a, b, c, d := Round1From0(a0, b0, c0, d0, xs);
    FourSteps(st, xs, 1, 0);
    a, b, c, d := Round1From4(a, b, c, d, xs);
    FourSteps(st, xs, 1, 4);
    a, b, c, d := Round1From8(a, b, c, d, xs);
    FourSteps(st, xs, 1, 8);
    a, b, c, d := Round1From12(a, b, c, d, xs);
    FourSteps(st, xs, 1, 12);
  }

  method Round2From0(a0: word, b0: word, c0: word, d0: word, xs: seq<word>) returns (a: word, b: word, c: word, d: word)
    requires |xs| == 16
    ensures State(a, b, c, d) == Four(State(a0, b0, c0, d0), xs, 2, 0)
  {
    hide P;
    a, b, c, d := a0, b0, c0, d0;
    a := P(2, a, b, c, d, xs[5], 4, 0xFFFA_3942);
    d := P(2, d, a, b, c, xs[8], 11, 0x8771_F681);
    c := P(2, c, d, a, b, xs[11], 16, 0x6D9D_6122);
    b := P(2, b, c, d, a, xs[14], 23, 0xFDE5_380C);
  }

  method Round2From4(a0: word, b0: word, c0: word, d0: word, xs: seq<word>) returns (a: word, b: word, c: word, d: word)
    requires |xs| == 16
    ensures State(a, b, c, d) == Four(State(a0, b0, c0, d0), xs, 2, 4)
  {
    hide P;
    a, b, c, d := a0, b0, c0, d0;
    a := P(2, a, b, c, d, xs[1], 4, 0xA4BE_EA44);
    d := P(2, d, a, b, c, xs[4], 11, 0x4BDE_CFA9);
    c := P(2, c, d, a, b, xs[7], 16, 0xF6BB_4B60);
    b := P(2, b, c, d, a, xs[10], 23, 0xBEBF_BC70);
  }

  method Round2From8(a0: word, b0: word, c0: word, d0: word, xs: seq<word>) returns (a: word, b: word, c: word, d: word)
    requires |xs| == 16
    ensures State(a, b, c, d) == Four(State(a0, b0, c0, d0), xs, 2, 8)
  {
    hide P;
    a, b, c, d := a0, b0, c0, d0;
    a := P(2, a, b, c, d, xs[13], 4, 0x289B_7EC6);
    d := P(2, d, a, b, c, xs[0], 11, 0xEAA1_27FA);
    c := P(2, c, d, a, b, xs[3], 16, 0xD4EF_3085);
    b := P(2, b, c, d, a, xs[6], 23, 0x0488_1D05);
  }

  method Round2From12(a0: word, b0: word, c0: word, d0: word, xs: seq<word>) returns (a: word, b: word, c: word, d: word)
    requires |xs| == 16
    ensures State(a, b, c, d) == Four(State(a0, b0, c0, d0), xs, 2, 12)
  {
    hide P;
    a, b, c, d := a0, b0, c0, d0;
    a := P(2, a, b, c, d, xs[9], 4, 0xD9D4_D039);
    d := P(2, d, a, b, c, xs[12], 11, 0xE6DB_99E5);
    c := P(2, c, d, a, b, xs[15], 16, 0x1FA2_7CF8);
    b := P(2, b, c, d, a, xs[2], 23, 0xC4AC_5665);
  }

  method Round2(a0: word, b0: word, c0: word, d0: word, xs: seq<word>) returns (a: word, b: word, c: word, d: word)
    requires |xs| == 16
    ensures State(a, b, c, d) == Steps(State(a0, b0, c0, d0), xs, 2, 16)
  {
    hide Four, Steps;
    ghost var st := State(a0, b0, c0, d0);
    NoSteps(st, xs, 2);
    a, b, c, d := Round2From0(a0, b0, c0, d0, xs);
    FourSteps(st, xs, 2, 0);
    a, b, c, d := Round2From4(a, b, c, d, xs);
    FourSteps(st, xs, 2, 4);
    a, b, c, d := Round2From8(a, b, c, d, xs);
    FourSteps(st, xs, 2, 8);
    a, b, c, d := Round2From12(a, b, c, d, xs);
    FourSteps(st, xs, 2, 12);
  }

  method Round3From0(a0: word, b0: word, c0: word, d0: word, xs: seq<word>) returns (a: word, b: word, c: word, d: word)
    requires |xs| == 16
    ensures State(a, b, c, d) == Four(State(a0, b0, c0, d0), xs, 3, 0)
  {
    hide P;
    a, b, c, d := a0, b0, c0, d0;
    a := P(3, a, b, c, d, xs[0], 6, 0xF429_2244);
    d := P(3, d, a, b, c, xs[7], 10, 0x432A_FF97);
    c := P(3, c, d, a, b, xs[14], 15, 0xAB94_23A7);
    b := P(3, b, c, d, a, xs[5], 21, 0xFC93_A039);
  }

  method Round3From4(a0: word, b0: word, c0: word, d0: word, xs: seq<word>) returns (a: word, b: word, c: word, d: word)
    requires |xs| == 16
    ensures State(a, b, c, d) == Four(State(a0, b0, c0, d0), xs, 3, 4)
  {
    hide P;
    a, b, c, d := a0, b0, c0, d0;
    a := P(3, a, b, c, d, xs[12], 6, 0x655B_59C3);
    d := P(3, d, a, b, c, xs[3], 10, 0x8F0C_CC92);
    c := P(3, c, d, a, b, xs[10], 15, 0xFFEF_F47D);
    b := P(3, b, c, d, a, xs[1], 21, 0x8584_5DD1);
  }

  method Round3From8(a0: word, b0: word, c0: word, d0: word, xs: seq<word>) returns (a: word, b: word, c: word, d: word)
    requires |xs| == 16
    ensures State(a, b, c, d) == Four(State(a0, b0, c0, d0), xs, 3, 8)
  {
    hide P;
    a, b, c, d := a0, b0, c0, d0;
    a := P(3, a, b, c, d, xs[8], 6, 0x6FA8_7E4F);
    d := P(3, d, a, b, c, xs[15], 10, 0xFE2C_E6E0);
    c := P(3, c, d, a, b, xs[6], 15, 0xA301_4314);
    b := P(3, b, c, d, a, xs[13], 21, 0x4E08_11A1);
  }

  method Round3From12(a0: word, b0: word, c0: word, d0: word, xs: seq<word>) returns (a: word, b: word, c: word, d: word)
    requires |xs| == 16
    ensures State(a, b, c, d) == Four(State(a0, b0, c0, d0), xs, 3, 12)
  {
    hide P;
    a, b, c, d := a0, b0, c0, d0;
    a := P(3, a, b, c, d, xs[4], 6, 0xF753_7E82);
    d := P(3, d, a, b, c, xs[11], 10, 0xBD3A_F235);
    c := P(3, c, d, a, b, xs[2], 15, 0x2AD7_D2BB);
    b := P(3, b, c, d, a, xs[9], 21, 0xEB86_D391);
  }

  method Round3(a0: word, b0: word, c0: word, d0: word, xs: seq<word>) returns (a: word, b: word, c: word, d: word)
    requires |xs| == 16
    ensures State(a, b, c, d) == Steps(State(a0, b0, c0, d0), xs, 3, 16)
  {
    hide Four, Steps;
    ghost var st := State(a0, b0, c0, d0);
    NoSteps(st, xs, 3);
    a, b, c, d := Round3From0(a0, b0, c0, d0, xs);
    FourSteps(st, xs, 3, 0);
    a, b, c, d := Round3From4(a, b, c, d, xs);
    FourSteps(st, xs, 3, 4);
    a, b, c, d := Round3From8(a, b, c, d, xs);
    FourSteps(st, xs, 3, 8);
    a, b, c, d := Round3From12(a, b, c, d, xs);
    FourSteps(st, xs, 3, 12);
  }

  lemma NoSteps(st: State, xs: seq<word>, round: nat)
    requires |xs| == 16
    ensures Steps(st, xs, round, 0) == st
  {
  }
}
