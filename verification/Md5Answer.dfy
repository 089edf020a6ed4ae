/**
 A known answer: the digest of "abc", as section A.5 of RFC 1321 gives it. The definitions of
 Rfc1321 are evaluated on it operation by operation.
 */
module Md5Answer {
  import opened Rfc1321

  const ABC: seq<octet> := [0x61, 0x62, 0x63]

  /** The words of the only block. */
  const X: seq<word> := [0x8063_6261, 0, 0, 0, 0, 0, 0, 0, 0, 0, 0, 0, 0, 0, 24, 0]

  /** The message word, the shift and the constant of an operation. */
  predicate Row(round: nat, j: nat, x: word, shift: nat, t: word) {
    X[Index(round, j)] == x && Shift(round, j) == shift && Sine(16 * round + j) == t
  }

  /** One operation from `s` on, given its row of the tables and the word it computes. */
  lemma Then(st: State, round: nat, j: nat, s: State, x: word, shift: nat, t: word, b: word)
    requires Steps(st, X, round, j) == s && Row(round, j, x, shift, t)
    requires shift < 32 && Operation(round, s.a, s.b, s.c, s.d, x, shift, t) == b
    ensures Steps(st, X, round, j + 1) == State(s.d, b, s.b, s.c)
  {
    hide Operation, Index, Shift, Sine;
  }

  lemma Rows00()
    ensures Row(0, 0, 0x8063_6261, 7, 0xD76A_A478) && Row(0, 1, 0, 12, 0xE8C7_B756)
    ensures Row(0, 2, 0, 17, 0x2420_70DB) && Row(0, 3, 0, 22, 0xC1BD_CEEE)
  {
  }

  lemma Quad00(st: State)
    requires Steps(st, X, 0, 0) == State(0x6745_2301, 0xEFCD_AB89, 0x98BA_DCFE, 0x1032_5476)
    ensures Steps(st, X, 0, 4) == State(0xD6D1_17B4, 0x7AD9_56F2, 0x2F6F_BD72, 0x344A_8432)
  {
    hide Steps, Row;
    Rows00();
    Then(st, 0, 0, State(0x6745_2301, 0xEFCD_AB89, 0x98BA_DCFE, 0x1032_5476), 0x8063_6261, 7, 0xD76A_A478, 0xD6D1_17B4);
    Then(st, 0, 1, State(0x1032_5476, 0xD6D1_17B4, 0xEFCD_AB89, 0x98BA_DCFE), 0, 12, 0xE8C7_B756, 0x344A_8432);
    Then(st, 0, 2, State(0x98BA_DCFE, 0x344A_8432, 0xD6D1_17B4, 0xEFCD_AB89), 0, 17, 0x2420_70DB, 0x2F6F_BD72);
    Then(st, 0, 3, State(0xEFCD_AB89, 0x2F6F_BD72, 0x344A_8432, 0xD6D1_17B4), 0, 22, 0xC1BD_CEEE, 0x7AD9_56F2);
  }

  lemma Rows01()
    ensures Row(0, 4, 0, 7, 0xF57C_0FAF) && Row(0, 5, 0, 12, 0x4787_C62A)
    ensures Row(0, 6, 0, 17, 0xA830_4613) && Row(0, 7, 0, 22, 0xFD46_9501)
  {
  }

  lemma Quad01(st: State)
    requires Steps(st, X, 0, 4) == State(0xD6D1_17B4, 0x7AD9_56F2, 0x2F6F_BD72, 0x344A_8432)
    ensures Steps(st, X, 0, 8) == State(0xC737_41EF, 0x928D_99F6, 0x207D_C67B, 0x8BAC_3051)
  {
    hide Steps, Row;
    Rows01();
    Then(st, 0, 4, State(0xD6D1_17B4, 0x7AD9_56F2, 0x2F6F_BD72, 0x344A_8432), 0, 7, 0xF57C_0FAF, 0xC737_41EF);
    Then(st, 0, 5, State(0x344A_8432, 0xC737_41EF, 0x7AD9_56F2, 0x2F6F_BD72), 0, 12, 0x4787_C62A, 0x8BAC_3051);
    Then(st, 0, 6, State(0x2F6F_BD72, 0x8BAC_3051, 0xC737_41EF, 0x7AD9_56F2), 0, 17, 0xA830_4613, 0x207D_C67B);
    Then(st, 0, 7, State(0x7AD9_56F2, 0x207D_C67B, 0x8BAC_3051, 0xC737_41EF), 0, 22, 0xFD46_9501, 0x928D_99F6);
  }

  lemma Rows02()
    ensures Row(0, 8, 0, 7, 0x6980_98D8) && Row(0, 9, 0, 12, 0x8B44_F7AF)
    ensures Row(0, 10, 0, 17, 0xFFFF_5BB1) && Row(0, 11, 0, 22, 0x895C_D7BE)
  {
  }

  lemma Quad02(st: State)
    requires Steps(st, X, 0, 8) == State(0xC737_41EF, 0x928D_99F6, 0x207D_C67B, 0x8BAC_3051)
    ensures Steps(st, X, 0, 12) == State(0x854B_3712, 0x5ED4_9596, 0x3020_401C, 0x74E2_F284)
  {
    hide Steps, Row;
    Rows02();
    Then(st, 0, 8, State(0xC737_41EF, 0x928D_99F6, 0x207D_C67B, 0x8BAC_3051), 0, 7, 0x6980_98D8, 0x854B_3712);
    Then(st, 0, 9, State(0x8BAC_3051, 0x854B_3712, 0x928D_99F6, 0x207D_C67B), 0, 12, 0x8B44_F7AF, 0x74E2_F284);
    Then(st, 0, 10, State(0x207D_C67B, 0x74E2_F284, 0x854B_3712, 0x928D_99F6), 0, 17, 0xFFFF_5BB1, 0x3020_401C);
    Then(st, 0, 11, State(0x928D_99F6, 0x3020_401C, 0x74E2_F284, 0x854B_3712), 0, 22, 0x895C_D7BE, 0x5ED4_9596);
  }

  lemma Rows03()
    ensures Row(0, 12, 0, 7, 0x6B90_1122) && Row(0, 13, 0, 12, 0xFD98_7193)
    ensures Row(0, 14, 24, 17, 0xA679_438E) && Row(0, 15, 0, 22, 0x49B4_0821)
  {
  }

  lemma Quad03(st: State)
    requires Steps(st, X, 0, 12) == State(0x854B_3712, 0x5ED4_9596, 0x3020_401C, 0x74E2_F284)
    ensures Steps(st, X, 0, 16) == State(0xDDA9_B9A6, 0x72AF_F2E0, 0xE396_856B, 0xA105_1895)
  {
    hide Steps, Row;
    Rows03();
    Then(st, 0, 12, State(0x854B_3712, 0x5ED4_9596, 0x3020_401C, 0x74E2_F284), 0, 7, 0x6B90_1122, 0xDDA9_B9A6);
    Then(st, 0, 13, State(0x74E2_F284, 0xDDA9_B9A6, 0x5ED4_9596, 0x3020_401C), 0, 12, 0xFD98_7193, 0xA105_1895);
    Then(st, 0, 14, State(0x3020_401C, 0xA105_1895, 0xDDA9_B9A6, 0x5ED4_9596), 24, 17, 0xA679_438E, 0xE396_856B);
    Then(st, 0, 15, State(0x5ED4_9596, 0xE396_856B, 0xA105_1895, 0xDDA9_B9A6), 0, 22, 0x49B4_0821, 0x72AF_F2E0);
  }

  lemma Rows10()
    ensures Row(1, 0, 0, 5, 0xF61E_2562) && Row(1, 1, 0, 9, 0xC040_B340)
    ensures Row(1, 2, 0, 14, 0x265E_5A51) && Row(1, 3, 0x8063_6261, 20, 0xE9B6_C7AA)
  {
  }

  lemma Quad10(st: State)
    requires Steps(st, X, 1, 0) == State(0xDDA9_B9A6, 0x72AF_F2E0, 0xE396_856B, 0xA105_1895)
    ensures Steps(st, X, 1, 4) == State(0x3E9E_9126, 0xB5B2_04E4, 0xE25E_1652, 0x4A1D_804E)
  {
    hide Steps, Row;
    Rows10();
    Then(st, 1, 0, State(0xDDA9_B9A6, 0x72AF_F2E0, 0xE396_856B, 0xA105_1895), 0, 5, 0xF61E_2562, 0x3E9E_9126);
    Then(st, 1, 1, State(0xA105_1895, 0x3E9E_9126, 0x72AF_F2E0, 0xE396_856B), 0, 9, 0xC040_B340, 0x4A1D_804E);
    Then(st, 1, 2, State(0xE396_856B, 0x4A1D_804E, 0x3E9E_9126, 0x72AF_F2E0), 0, 14, 0x265E_5A51, 0xE25E_1652);
    Then(st, 1, 3, State(0x72AF_F2E0, 0xE25E_1652, 0x4A1D_804E, 0x3E9E_9126), 0x8063_6261, 20, 0xE9B6_C7AA, 0xB5B2_04E4);
  }

  lemma Rows11()
    ensures Row(1, 4, 0, 5, 0xD62F_105D) && Row(1, 5, 0, 9, 0x0244_1453)
    ensures Row(1, 6, 0, 14, 0xD8A1_E681) && Row(1, 7, 0, 20, 0xE7D3_FBC8)
  {
  }

  lemma Quad11(st: State)
    requires Steps(st, X, 1, 4) == State(0x3E9E_9126, 0xB5B2_04E4, 0xE25E_1652, 0x4A1D_804E)
    ensures Steps(st, X, 1, 8) == State(0x59A8_FFDA, 0x4709_2C07, 0xABFC_7920, 0x6D00_2F1E)
  {
    hide Steps, Row;
    Rows11();
    Then(st, 1, 4, State(0x3E9E_9126, 0xB5B2_04E4, 0xE25E_1652, 0x4A1D_804E), 0, 5, 0xD62F_105D, 0x59A8_FFDA);
    Then(st, 1, 5, State(0x4A1D_804E, 0x59A8_FFDA, 0xB5B2_04E4, 0xE25E_1652), 0, 9, 0x0244_1453, 0x6D00_2F1E);
    Then(st, 1, 6, State(0xE25E_1652, 0x6D00_2F1E, 0x59A8_FFDA, 0xB5B2_04E4), 0, 14, 0xD8A1_E681, 0xABFC_7920);
    Then(st, 1, 7, State(0xB5B2_04E4, 0xABFC_7920, 0x6D00_2F1E, 0x59A8_FFDA), 0, 20, 0xE7D3_FBC8, 0x4709_2C07);
  }

  lemma Rows12()
    ensures Row(1, 8, 0, 5, 0x21E1_CDE6) && Row(1, 9, 24, 9, 0xC337_07D6)
    ensures Row(1, 10, 0, 14, 0xF4D5_0D87) && Row(1, 11, 0, 20, 0x455A_14ED)
  {
  }

  lemma Quad12(st: State)
    requires Steps(st, X, 1, 8) == State(0x59A8_FFDA, 0x4709_2C07, 0xABFC_7920, 0x6D00_2F1E)
    ensures Steps(st, X, 1, 12) == State(0xB7F2_68CF, 0x786A_CB8F, 0xFE16_23B1, 0x0938_8EFF)
  {
    hide Steps, Row;
    Rows12();
    Then(st, 1, 8, State(0x59A8_FFDA, 0x4709_2C07, 0xABFC_7920, 0x6D00_2F1E), 0, 5, 0x21E1_CDE6, 0xB7F2_68CF);
    Then(st, 1, 9, State(0x6D00_2F1E, 0xB7F2_68CF, 0x4709_2C07, 0xABFC_7920), 24, 9, 0xC337_07D6, 0x0938_8EFF);
    Then(st, 1, 10, State(0xABFC_7920, 0x0938_8EFF, 0xB7F2_68CF, 0x4709_2C07), 0, 14, 0xF4D5_0D87, 0xFE16_23B1);
    Then(st, 1, 11, State(0x4709_2C07, 0xFE16_23B1, 0x0938_8EFF, 0xB7F2_68CF), 0, 20, 0x455A_14ED, 0x786A_CB8F);
  }

  lemma Rows13()
    ensures Row(1, 12, 0, 5, 0xA9E3_E905) && Row(1, 13, 0, 9, 0xFCEF_A3F8)
    ensures Row(1, 14, 0, 14, 0x676F_02D9) && Row(1, 15, 0, 20, 0x8D2A_4C8A)
  {
  }

  lemma Quad13(st: State)
    requires Steps(st, X, 1, 12) == State(0xB7F2_68CF, 0x786A_CB8F, 0xFE16_23B1, 0x0938_8EFF)
    ensures Steps(st, X, 1, 16) == State(0x790A_77FB, 0x7263_42D3, 0xA628_84AA, 0x9F47_E4F8)
  {
    hide Steps, Row;
    Rows13();
    Then(st, 1, 12, State(0xB7F2_68CF, 0x786A_CB8F, 0xFE16_23B1, 0x0938_8EFF), 0, 5, 0xA9E3_E905, 0x790A_77FB);
    Then(st, 1, 13, State(0x0938_8EFF, 0x790A_77FB, 0x786A_CB8F, 0xFE16_23B1), 0, 9, 0xFCEF_A3F8, 0x9F47_E4F8);
    Then(st, 1, 14, State(0xFE16_23B1, 0x9F47_E4F8, 0x790A_77FB, 0x786A_CB8F), 0, 14, 0x676F_02D9, 0xA628_84AA);
    Then(st, 1, 15, State(0x786A_CB8F, 0xA628_84AA, 0x9F47_E4F8, 0x790A_77FB), 0, 20, 0x8D2A_4C8A, 0x7263_42D3);
  }

  lemma Rows20()
    ensures Row(2, 0, 0, 4, 0xFFFA_3942) && Row(2, 1, 0, 11, 0x8771_F681)
    ensures Row(2, 2, 0, 16, 0x6D9D_6122) && Row(2, 3, 24, 23, 0xFDE5_380C)
  {
  }

  lemma Quad20(st: State)
    requires Steps(st, X, 2, 0) == State(0x790A_77FB, 0x7263_42D3, 0xA628_84AA, 0x9F47_E4F8)
    ensures Steps(st, X, 2, 4) == State(0xB370_7EBF, 0x3B08_75C7, 0x8D21_2FF5, 0x6012_7B2E)
  {
    hide Steps, Row;
    Rows20();
    Then(st, 2, 0, State(0x790A_77FB, 0x7263_42D3, 0xA628_84AA, 0x9F47_E4F8), 0, 4, 0xFFFA_3942, 0xB370_7EBF);
    Then(st, 2, 1, State(0x9F47_E4F8, 0xB370_7EBF, 0x7263_42D3, 0xA628_84AA), 0, 11, 0x8771_F681, 0x6012_7B2E);
    Then(st, 2, 2, State(0xA628_84AA, 0x6012_7B2E, 0xB370_7EBF, 0x7263_42D3), 0, 16, 0x6D9D_6122, 0x8D21_2FF5);
    Then(st, 2, 3, State(0x7263_42D3, 0x8D21_2FF5, 0x6012_7B2E, 0xB370_7EBF), 24, 23, 0xFDE5_380C, 0x3B08_75C7);
  }

  lemma Rows21()
    ensures Row(2, 4, 0, 4, 0xA4BE_EA44) && Row(2, 5, 0, 11, 0x4BDE_CFA9)
    ensures Row(2, 6, 0, 16, 0xF6BB_4B60) && Row(2, 7, 0, 23, 0xBEBF_BC70)
  {
  }

  lemma Quad21(st: State)
    requires Steps(st, X, 2, 4) == State(0xB370_7EBF, 0x3B08_75C7, 0x8D21_2FF5, 0x6012_7B2E)
    ensures Steps(st, X, 2, 8) == State(0x21B1_17B9, 0x5A2F_5EA5, 0x3575_227E, 0x6E74_29D5)
  {
    hide Steps, Row;
    Rows21();
    Then(st, 2, 4, State(0xB370_7EBF, 0x3B08_75C7, 0x8D21_2FF5, 0x6012_7B2E), 0, 4, 0xA4BE_EA44, 0x21B1_17B9);
    Then(st, 2, 5, State(0x6012_7B2E, 0x21B1_17B9, 0x3B08_75C7, 0x8D21_2FF5), 0, 11, 0x4BDE_CFA9, 0x6E74_29D5);
    Then(st, 2, 6, State(0x8D21_2FF5, 0x6E74_29D5, 0x21B1_17B9, 0x3B08_75C7), 0, 16, 0xF6BB_4B60, 0x3575_227E);
    Then(st, 2, 7, State(0x3B08_75C7, 0x3575_227E, 0x6E74_29D5, 0x21B1_17B9), 0, 23, 0xBEBF_BC70, 0x5A2F_5EA5);
  }

  lemma Rows22()
    ensures Row(2, 8, 0, 4, 0x289B_7EC6) && Row(2, 9, 0x8063_6261, 11, 0xEAA1_27FA)
    ensures Row(2, 10, 0, 16, 0xD4EF_3085) && Row(2, 11, 0, 23, 0x0488_1D05)
  {
  }

  lemma Quad22(st: State)
    requires Steps(st, X, 2, 8) == State(0x21B1_17B9, 0x5A2F_5EA5, 0x3575_227E, 0x6E74_29D5)
    ensures Steps(st, X, 2, 12) == State(0x11DE_1779, 0x4C61_24F4, 0x31C4_65CA, 0xFADC_AA38)
  {
    hide Steps, Row;
    Rows22();
    Then(st, 2, 8, State(0x21B1_17B9, 0x5A2F_5EA5, 0x3575_227E, 0x6E74_29D5), 0, 4, 0x289B_7EC6, 0x11DE_1779);
    Then(st, 2, 9, State(0x6E74_29D5, 0x11DE_1779, 0x5A2F_5EA5, 0x3575_227E), 0x8063_6261, 11, 0xEAA1_27FA, 0xFADC_AA38);
    Then(st, 2, 10, State(0x3575_227E, 0xFADC_AA38, 0x11DE_1779, 0x5A2F_5EA5), 0, 16, 0xD4EF_3085, 0x31C4_65CA);
    Then(st, 2, 11, State(0x5A2F_5EA5, 0x31C4_65CA, 0xFADC_AA38, 0x11DE_1779), 0, 23, 0x0488_1D05, 0x4C61_24F4);
  }

  lemma Rows23()
    ensures Row(2, 12, 0, 4, 0xD9D4_D039) && Row(2, 13, 0, 11, 0xE6DB_99E5)
    ensures Row(2, 14, 0, 16, 0x1FA2_7CF8) && Row(2, 15, 0, 23, 0xC4AC_5665)
  {
  }

  lemma Quad23(st: State)
    requires Steps(st, X, 2, 12) == State(0x11DE_1779, 0x4C61_24F4, 0x31C4_65CA, 0xFADC_AA38)
    ensures Steps(st, X, 2, 16) == State(0x7F2E_507B, 0x7BEB_9700, 0x8FAE_6399, 0x99D9_679D)
  {
    hide Steps, Row;
    Rows23();
    Then(st, 2, 12, State(0x11DE_1779, 0x4C61_24F4, 0x31C4_65CA, 0xFADC_AA38), 0, 4, 0xD9D4_D039, 0x7F2E_507B);
    Then(st, 2, 13, State(0xFADC_AA38, 0x7F2E_507B, 0x4C61_24F4, 0x31C4_65CA), 0, 11, 0xE6DB_99E5, 0x99D9_679D);
    Then(st, 2, 14, State(0x31C4_65CA, 0x99D9_679D, 0x7F2E_507B, 0x4C61_24F4), 0, 16, 0x1FA2_7CF8, 0x8FAE_6399);
    Then(st, 2, 15, State(0x4C61_24F4, 0x8FAE_6399, 0x99D9_679D, 0x7F2E_507B), 0, 23, 0xC4AC_5665, 0x7BEB_9700);
  }

  lemma Rows30()
    ensures Row(3, 0, 0x8063_6261, 6, 0xF429_2244) && Row(3, 1, 0, 10, 0x432A_FF97)
    ensures Row(3, 2, 24, 15, 0xAB94_23A7) && Row(3, 3, 0, 21, 0xFC93_A039)
  {
  }

  lemma Quad30(st: State)
    requires Steps(st, X, 3, 0) == State(0x7F2E_507B, 0x7BEB_9700, 0x8FAE_6399, 0x99D9_679D)
    ensures Steps(st, X, 3, 4) == State(0x7B20_1DF8, 0x8BF0_25C4, 0xB298_CEFD, 0xF4E8_E96E)
  {
    hide Steps, Row;
    Rows30();
    Then(st, 3, 0, State(0x7F2E_507B, 0x7BEB_9700, 0x8FAE_6399, 0x99D9_679D), 0x8063_6261, 6, 0xF429_2244, 0x7B20_1DF8);
    Then(st, 3, 1, State(0x99D9_679D, 0x7B20_1DF8, 0x7BEB_9700, 0x8FAE_6399), 0, 10, 0x432A_FF97, 0xF4E8_E96E);
    Then(st, 3, 2, State(0x8FAE_6399, 0xF4E8_E96E, 0x7B20_1DF8, 0x7BEB_9700), 24, 15, 0xAB94_23A7, 0xB298_CEFD);
    Then(st, 3, 3, State(0x7BEB_9700, 0xB298_CEFD, 0xF4E8_E96E, 0x7B20_1DF8), 0, 21, 0xFC93_A039, 0x8BF0_25C4);
  }

  lemma Rows31()
    ensures Row(3, 4, 0, 6, 0x655B_59C3) && Row(3, 5, 0, 10, 0x8F0C_CC92)
    ensures Row(3, 6, 0, 15, 0xFFEF_F47D) && Row(3, 7, 0, 21, 0x8584_5DD1)
  {
  }

  lemma Quad31(st: State)
    requires Steps(st, X, 3, 4) == State(0x7B20_1DF8, 0x8BF0_25C4, 0xB298_CEFD, 0xF4E8_E96E)
    ensures Steps(st, X, 3, 8) == State(0x06CC_5E8A, 0x3BFA_2C27, 0x7D63_2DD0, 0x5B0D_97AA)
  {
    hide Steps, Row;
    Rows31();
    Then(st, 3, 4, State(0x7B20_1DF8, 0x8BF0_25C4, 0xB298_CEFD, 0xF4E8_E96E), 0, 6, 0x655B_59C3, 0x06CC_5E8A);
    Then(st, 3, 5, State(0xF4E8_E96E, 0x06CC_5E8A, 0x8BF0_25C4, 0xB298_CEFD), 0, 10, 0x8F0C_CC92, 0x5B0D_97AA);
    Then(st, 3, 6, State(0xB298_CEFD, 0x5B0D_97AA, 0x06CC_5E8A, 0x8BF0_25C4), 0, 15, 0xFFEF_F47D, 0x7D63_2DD0);
    Then(st, 3, 7, State(0x8BF0_25C4, 0x7D63_2DD0, 0x5B0D_97AA, 0x06CC_5E8A), 0, 21, 0x8584_5DD1, 0x3BFA_2C27);
  }

  lemma Rows32()
    ensures Row(3, 8, 0, 6, 0x6FA8_7E4F) && Row(3, 9, 0, 10, 0xFE2C_E6E0)
    ensures Row(3, 10, 0, 15, 0xA301_4314) && Row(3, 11, 0, 21, 0x4E08_11A1)
  {
  }

  lemma Quad32(st: State)
    requires Steps(st, X, 3, 8) == State(0x06CC_5E8A, 0x3BFA_2C27, 0x7D63_2DD0, 0x5B0D_97AA)
    ensures Steps(st, X, 3, 12) == State(0x7F81_CC35, 0x7327_D604, 0x4F9D_BE3F, 0x0944_54AB)
  {
    hide Steps, Row;
    Rows32();
    Then(st, 3, 8, State(0x06CC_5E8A, 0x3BFA_2C27, 0x7D63_2DD0, 0x5B0D_97AA), 0, 6, 0x6FA8_7E4F, 0x7F81_CC35);
    Then(st, 3, 9, State(0x5B0D_97AA, 0x7F81_CC35, 0x3BFA_2C27, 0x7D63_2DD0), 0, 10, 0xFE2C_E6E0, 0x0944_54AB);
    Then(st, 3, 10, State(0x7D63_2DD0, 0x0944_54AB, 0x7F81_CC35, 0x3BFA_2C27), 0, 15, 0xA301_4314, 0x4F9D_BE3F);
    Then(st, 3, 11, State(0x3BFA_2C27, 0x4F9D_BE3F, 0x0944_54AB, 0x7F81_CC35), 0, 21, 0x4E08_11A1, 0x7327_D604);
  }

  lemma Rows33()
    ensures Row(3, 12, 0, 6, 0xF753_7E82) && Row(3, 13, 0, 10, 0xBD3A_F235)
    ensures Row(3, 14, 0, 15, 0x2AD7_D2BB) && Row(3, 15, 0, 21, 0xEB86_D391)
  {
  }

  lemma Quad33(st: State)
    requires Steps(st, X, 3, 12) == State(0x7F81_CC35, 0x7327_D604, 0x4F9D_BE3F, 0x0944_54AB)
    ensures Steps(st, X, 3, 16) == State(0x310A_DE8F, 0xC082_26B3, 0xE484_B9D8, 0x624D_8CB2)
  {
    hide Steps, Row;
    Rows33();
    Then(st, 3, 12, State(0x7F81_CC35, 0x7327_D604, 0x4F9D_BE3F, 0x0944_54AB), 0, 6, 0xF753_7E82, 0x310A_DE8F);
    Then(st, 3, 13, State(0x0944_54AB, 0x310A_DE8F, 0x7327_D604, 0x4F9D_BE3F), 0, 10, 0xBD3A_F235, 0x624D_8CB2);
    Then(st, 3, 14, State(0x4F9D_BE3F, 0x624D_8CB2, 0x310A_DE8F, 0x7327_D604), 0, 15, 0x2AD7_D2BB, 0xE484_B9D8);
    Then(st, 3, 15, State(0x7327_D604, 0xE484_B9D8, 0x624D_8CB2, 0x310A_DE8F), 0, 21, 0xEB86_D391, 0xC082_26B3);
  }

  lemma Round0()
    ensures Steps(State(0x6745_2301, 0xEFCD_AB89, 0x98BA_DCFE, 0x1032_5476), X, 0, 16) ==
            State(0xDDA9_B9A6, 0x72AF_F2E0, 0xE396_856B, 0xA105_1895)
  {
    hide Steps;
    var st := State(0x6745_2301, 0xEFCD_AB89, 0x98BA_DCFE, 0x1032_5476);
    NoSteps(st, 0);
    Quad00(st);
    Quad01(st);
    Quad02(st);
    Quad03(st);
  }

  lemma Round1()
    ensures Steps(State(0xDDA9_B9A6, 0x72AF_F2E0, 0xE396_856B, 0xA105_1895), X, 1, 16) ==
            State(0x790A_77FB, 0x7263_42D3, 0xA628_84AA, 0x9F47_E4F8)
  {
    hide Steps;
    var st := State(0xDDA9_B9A6, 0x72AF_F2E0, 0xE396_856B, 0xA105_1895);
    NoSteps(st, 1);
    Quad10(st);
    Quad11(st);
    Quad12(st);
    Quad13(st);
  }

  lemma Round2()
    ensures Steps(State(0x790A_77FB, 0x7263_42D3, 0xA628_84AA, 0x9F47_E4F8), X, 2, 16) ==
            State(0x7F2E_507B, 0x7BEB_9700, 0x8FAE_6399, 0x99D9_679D)
  {
    hide Steps;
    var st := State(0x790A_77FB, 0x7263_42D3, 0xA628_84AA, 0x9F47_E4F8);
    NoSteps(st, 2);
    Quad20(st);
    Quad21(st);
    Quad22(st);
    Quad23(st);
  }

  lemma Round3()
    ensures Steps(State(0x7F2E_507B, 0x7BEB_9700, 0x8FAE_6399, 0x99D9_679D), X, 3, 16) ==
            State(0x310A_DE8F, 0xC082_26B3, 0xE484_B9D8, 0x624D_8CB2)
  {
    hide Steps;
    var st := State(0x7F2E_507B, 0x7BEB_9700, 0x8FAE_6399, 0x99D9_679D);
    NoSteps(st, 3);
    Quad30(st);
    Quad31(st);
    Quad32(st);
    Quad33(st);
  }

  lemma NoSteps(st: State, round: nat)
    ensures Steps(st, X, round, 0) == st
  {
  }

  lemma AllRounds()
    ensures Rounds(INIT, X, 4) == State(0x310A_DE8F, 0xC082_26B3, 0xE484_B9D8, 0x624D_8CB2)
  {
    hide Steps;
    Round0();
    Round1();
    Round2();
    Round3();
    assert Rounds(INIT, X, 1) == Steps(INIT, X, 0, 16);
    assert Rounds(INIT, X, 3) == Steps(Rounds(INIT, X, 2), X, 2, 16);
  }

  lemma Padding()
    ensures Padded(ABC) == [0x61, 0x62, 0x63, 0x80] + Zeros(52) + ([24] + Zeros(7))
  {
    hide Octets, Zeros;
    LengthBytes();
    assert (55 - |ABC|) % 64 == 52;
    assert ABC + [0x80] == [0x61, 0x62, 0x63, 0x80];
  }

  /** Its bytes, by position. */
  lemma PaddedBytes(k: nat)
    requires k < 64
    ensures |Padded(ABC)| == 64
    ensures Padded(ABC)[k] == if k == 0 then 0x61 else if k == 1 then 0x62 else if k == 2 then 0x63
                              else if k == 3 then 0x80 else if k == 56 then 24 else 0
  {
    hide Padded;
    Padding();
  }

  /** The padded message is one block, of these words. */
  lemma Block()
    ensures |Padded(ABC)| == 64 && Words(Padded(ABC)) == X
  {
    hide Word, Padded;
    PaddedBytes(0);
    BlockWords();
    forall i | 0 <= i < 16 ensures Words(Padded(ABC))[i] == X[i] {
      PaddedBytes(4 * i);
      PaddedBytes(4 * i + 1);
      PaddedBytes(4 * i + 2);
      PaddedBytes(4 * i + 3);
    }
  }

  lemma BlockWords()
    ensures Word(0x61, 0x62, 0x63, 0x80) == 0x8063_6261 && Word(24, 0, 0, 0) == 24 && Word(0, 0, 0, 0) == 0
  {
  }

  lemma LengthBytes()
    ensures Octets(24, 8) == [24] + Zeros(7)
  {
    NoOctets(7);
  }

  lemma {:induction false} NoOctets(n: nat)
    ensures Octets(0, n) == Zeros(n)
    decreases n
  {
    if n > 0 {
      NoOctets(n - 1);
    }
  }

  /** The known answer. */
  lemma Answer()
    ensures Md5(ABC) == [0x90, 0x01, 0x50, 0x98, 0x3C, 0xD2, 0x4F, 0xB0,
                         0xD6, 0x96, 0x3F, 0x7D, 0x28, 0xE1, 0x7F, 0x72]
  {
    hide Rounds, Words, Padded, OutputWord;
    var p := Padded(ABC);
    Block();
    AllRounds();
    assert p[..64] == p;
    OneBlock(p);
    Digits();
  }

  lemma OneBlock(p: seq<octet>)
    requires |p| == 64
    ensures Absorb(INIT, p) == Compress(INIT, p)
  {
    hide Compress;
    assert p[..64] == p && p[64..] == [];
  }

  lemma Digits()
    ensures var r := State(0x310A_DE8F, 0xC082_26B3, 0xE484_B9D8, 0x624D_8CB2);
            && OutputWord(Plus(0x6745_2301, r.a)) == [0x90, 0x01, 0x50, 0x98]
            && OutputWord(Plus(0xEFCD_AB89, r.b)) == [0x3C, 0xD2, 0x4F, 0xB0]
            && OutputWord(Plus(0x98BA_DCFE, r.c)) == [0xD6, 0x96, 0x3F, 0x7D]
            && OutputWord(Plus(0x1032_5476, r.d)) == [0x28, 0xE1, 0x7F, 0x72]
  {
  }
}
