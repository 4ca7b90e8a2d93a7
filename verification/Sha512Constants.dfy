/** The constants of SHA-512, checked against the roots they are taken from. */
module Sha512Constants {
  import opened LittleEndian

  /** A table entry: high half, low half. */
  datatype Halves = Halves(hi: u32, lo: u32)

  /** The round constants. */
  function KTable(i: nat): Halves
    requires i < 80
  {
    match i / 10
    case 0 => KTable0(i % 10)
    case 1 => KTable10(i % 10)
    case 2 => KTable20(i % 10)
    case 3 => KTable30(i % 10)
    case 4 => KTable40(i % 10)
    case 5 => KTable50(i % 10)
    case 6 => KTable60(i % 10)
    case _ => KTable70(i % 10)
  }

  function KTable0(i: nat): Halves
    requires i < 10
  {
    match i
    case 0 => Halves(0x428A2F98, 0xD728AE22)
    case 1 => Halves(0x71374491, 0x23EF65CD)
    case 2 => Halves(0xB5C0FBCF, 0xEC4D3B2F)
    case 3 => Halves(0xE9B5DBA5, 0x8189DBBC)
    case 4 => Halves(0x3956C25B, 0xF348B538)
    case 5 => Halves(0x59F111F1, 0xB605D019)
    case 6 => Halves(0x923F82A4, 0xAF194F9B)
    case 7 => Halves(0xAB1C5ED5, 0xDA6D8118)
    case 8 => Halves(0xD807AA98, 0xA3030242)
    case _ => Halves(0x12835B01, 0x45706FBE)
  }

  function KTable10(i: nat): Halves
    requires i < 10
  {
    match i
    case 0 => Halves(0x243185BE, 0x4EE4B28C)
    case 1 => Halves(0x550C7DC3, 0xD5FFB4E2)
    case 2 => Halves(0x72BE5D74, 0xF27B896F)
    case 3 => Halves(0x80DEB1FE, 0x3B1696B1)
    case 4 => Halves(0x9BDC06A7, 0x25C71235)
    case 5 => Halves(0xC19BF174, 0xCF692694)
    case 6 => Halves(0xE49B69C1, 0x9EF14AD2)
    case 7 => Halves(0xEFBE4786, 0x384F25E3)
    case 8 => Halves(0x0FC19DC6, 0x8B8CD5B5)
    case _ => Halves(0x240CA1CC, 0x77AC9C65)
  }

  function KTable20(i: nat): Halves
    requires i < 10
  {
    match i
    case 0 => Halves(0x2DE92C6F, 0x592B0275)
    case 1 => Halves(0x4A7484AA, 0x6EA6E483)
    case 2 => Halves(0x5CB0A9DC, 0xBD41FBD4)
    case 3 => Halves(0x76F988DA, 0x831153B5)
    case 4 => Halves(0x983E5152, 0xEE66DFAB)
    case 5 => Halves(0xA831C66D, 0x2DB43210)
    case 6 => Halves(0xB00327C8, 0x98FB213F)
    case 7 => Halves(0xBF597FC7, 0xBEEF0EE4)
    case 8 => Halves(0xC6E00BF3, 0x3DA88FC2)
    case _ => Halves(0xD5A79147, 0x930AA725)
  }

  function KTable30(i: nat): Halves
    requires i < 10
  {
    match i
    case 0 => Halves(0x06CA6351, 0xE003826F)
    case 1 => Halves(0x14292967, 0x0A0E6E70)
    case 2 => Halves(0x27B70A85, 0x46D22FFC)
    case 3 => Halves(0x2E1B2138, 0x5C26C926)
    case 4 => Halves(0x4D2C6DFC, 0x5AC42AED)
    case 5 => Halves(0x53380D13, 0x9D95B3DF)
    case 6 => Halves(0x650A7354, 0x8BAF63DE)
    case 7 => Halves(0x766A0ABB, 0x3C77B2A8)
    case 8 => Halves(0x81C2C92E, 0x47EDAEE6)
    case _ => Halves(0x92722C85, 0x1482353B)
  }

  function KTable40(i: nat): Halves
    requires i < 10
  {
    match i
    case 0 => Halves(0xA2BFE8A1, 0x4CF10364)
    case 1 => Halves(0xA81A664B, 0xBC423001)
    case 2 => Halves(0xC24B8B70, 0xD0F89791)
    case 3 => Halves(0xC76C51A3, 0x0654BE30)
    case 4 => Halves(0xD192E819, 0xD6EF5218)
    case 5 => Halves(0xD6990624, 0x5565A910)
    case 6 => Halves(0xF40E3585, 0x5771202A)
    case 7 => Halves(0x106AA070, 0x32BBD1B8)
    case 8 => Halves(0x19A4C116, 0xB8D2D0C8)
    case _ => Halves(0x1E376C08, 0x5141AB53)
  }

  function KTable50(i: nat): Halves
    requires i < 10
  {
    match i
    case 0 => Halves(0x2748774C, 0xDF8EEB99)
    case 1 => Halves(0x34B0BCB5, 0xE19B48A8)
    case 2 => Halves(0x391C0CB3, 0xC5C95A63)
    case 3 => Halves(0x4ED8AA4A, 0xE3418ACB)
    case 4 => Halves(0x5B9CCA4F, 0x7763E373)
    case 5 => Halves(0x682E6FF3, 0xD6B2B8A3)
    case 6 => Halves(0x748F82EE, 0x5DEFB2FC)
    case 7 => Halves(0x78A5636F, 0x43172F60)
    case 8 => Halves(0x84C87814, 0xA1F0AB72)
    case _ => Halves(0x8CC70208, 0x1A6439EC)
  }

  function KTable60(i: nat): Halves
    requires i < 10
  {
    match i
    case 0 => Halves(0x90BEFFFA, 0x23631E28)
    case 1 => Halves(0xA4506CEB, 0xDE82BDE9)
    case 2 => Halves(0xBEF9A3F7, 0xB2C67915)
    case 3 => Halves(0xC67178F2, 0xE372532B)
    case 4 => Halves(0xCA273ECE, 0xEA26619C)
    case 5 => Halves(0xD186B8C7, 0x21C0C207)
    case 6 => Halves(0xEADA7DD6, 0xCDE0EB1E)
    case 7 => Halves(0xF57D4F7F, 0xEE6ED178)
    case 8 => Halves(0x06F067AA, 0x72176FBA)
    case _ => Halves(0x0A637DC5, 0xA2C898A6)
  }

  function KTable70(i: nat): Halves
    requires i < 10
  {
    match i
    case 0 => Halves(0x113F9804, 0xBEF90DAE)
    case 1 => Halves(0x1B710B35, 0x131C471B)
    case 2 => Halves(0x28DB77F5, 0x23047D84)
    case 3 => Halves(0x32CAAB7B, 0x40C72493)
    case 4 => Halves(0x3C9EBE0A, 0x15C9BEBC)
    case 5 => Halves(0x431D67C4, 0x9C100D4C)
    case 6 => Halves(0x4CC5D4BE, 0xCB3E42B6)
    case 7 => Halves(0x597F299C, 0xFC657E2A)
    case 8 => Halves(0x5FCB6FAB, 0x3AD6FAEC)
    case _ => Halves(0x6C44198C, 0x4A475817)
  }

  /** The initial value. */
  function H0Table(i: nat): Halves
    requires i < 8
  {
    match i
    case 0 => Halves(0x6A09E667, 0xF3BCC908)
    case 1 => Halves(0xBB67AE85, 0x84CAA73B)
    case 2 => Halves(0x3C6EF372, 0xFE94F82B)
    case 3 => Halves(0xA54FF53A, 0x5F1D36F1)
    case 4 => Halves(0x510E527F, 0xADE682D1)
    case 5 => Halves(0x9B05688C, 0x2B3E6C1F)
    case 6 => Halves(0x1F83D9AB, 0xFB41BD6B)
    case _ => Halves(0x5BE0CD19, 0x137E2179)
  }

  /** The first eighty primes. */
  function Prime(i: nat): nat
    requires i < 80
  {
    match i / 10
    case 0 => Prime0(i % 10)
    case 1 => Prime10(i % 10)
    case 2 => Prime20(i % 10)
    case 3 => Prime30(i % 10)
    case 4 => Prime40(i % 10)
    case 5 => Prime50(i % 10)
    case 6 => Prime60(i % 10)
    case _ => Prime70(i % 10)
  }

  function Prime0(i: nat): nat
    requires i < 10
  {
    match i
    case 0 => 2
    case 1 => 3
    case 2 => 5
    case 3 => 7
    case 4 => 11
    case 5 => 13
    case 6 => 17
    case 7 => 19
    case 8 => 23
    case _ => 29
  }

  function Prime10(i: nat): nat
    requires i < 10
  {
    match i
    case 0 => 31
    case 1 => 37
    case 2 => 41
    case 3 => 43
    case 4 => 47
    case 5 => 53
    case 6 => 59
    case 7 => 61
    case 8 => 67
    case _ => 71
  }

  function Prime20(i: nat): nat
    requires i < 10
  {
    match i
    case 0 => 73
    case 1 => 79
    case 2 => 83
    case 3 => 89
    case 4 => 97
    case 5 => 101
    case 6 => 103
    case 7 => 107
    case 8 => 109
    case _ => 113
  }

  function Prime30(i: nat): nat
    requires i < 10
  {
    match i
    case 0 => 127
    case 1 => 131
    case 2 => 137
    case 3 => 139
    case 4 => 149
    case 5 => 151
    case 6 => 157
    case 7 => 163
    case 8 => 167
    case _ => 173
  }

  function Prime40(i: nat): nat
    requires i < 10
  {
    match i
    case 0 => 179
    case 1 => 181
    case 2 => 191
    case 3 => 193
    case 4 => 197
    case 5 => 199
    case 6 => 211
    case 7 => 223
    case 8 => 227
    case _ => 229
  }

  function Prime50(i: nat): nat
    requires i < 10
  {
    match i
    case 0 => 233
    case 1 => 239
    case 2 => 241
    case 3 => 251
    case 4 => 257
    case 5 => 263
    case 6 => 269
    case 7 => 271
    case 8 => 277
    case _ => 281
  }

  function Prime60(i: nat): nat
    requires i < 10
  {
    match i
    case 0 => 283
    case 1 => 293
    case 2 => 307
    case 3 => 311
    case 4 => 313
    case 5 => 317
    case 6 => 331
    case 7 => 337
    case 8 => 347
    case _ => 349
  }

  function Prime70(i: nat): nat
    requires i < 10
  {
    match i
    case 0 => 353
    case 1 => 359
    case 2 => 367
    case 3 => 373
    case 4 => 379
    case 5 => 383
    case 6 => 389
    case 7 => 397
    case 8 => 401
    case _ => 409
  }

  const TWO_32 := 0x1_0000_0000
  const TWO_64 := 0x1_0000_0000_0000_0000

  function EntryValue(e: Halves): nat {
    TWO_32 * Half(e.hi) + Half(e.lo)
  }

  function Half(v: int): int {
    v
  }

  /** x is the cube root of p in units of 2^-64, rounded down. */
  predicate CubeRoot(p: nat, x: nat) {
    x * x * x <= p * TWO_64 * TWO_64 * TWO_64 < (x + 1) * (x + 1) * (x + 1)
  }

  /** x is the square root of p in units of 2^-64, rounded down. */
  predicate SquareRoot(p: nat, x: nat) {
    x * x <= p * TWO_64 * TWO_64 < (x + 1) * (x + 1)
  }

  /** Constant i is the first 64 bits of the fractional part of the cube root of prime i (section 4.2.3). */
  ghost predicate KIsFraction(i: nat)
    requires i < 80
  {
    exists whole: nat :: whole < 8 && CubeRoot(Prime(i), TWO_64 * whole + EntryValue(KTable(i)))
  }

  /** Initial value i is the first 64 bits of the fractional part of the square root of prime i (section 5.3.5). */
  ghost predicate HIsFraction(i: nat)
    requires i < 8
  {
    exists whole: nat :: whole < 5 && SquareRoot(Prime(i), TWO_64 * whole + EntryValue(H0Table(i)))
  }

  lemma KFractions0()
    ensures forall i: nat :: 0 <= i < 10 ==> KIsFraction(i)
  {
    hide KIsFraction;
    KFraction(0, 1, 2, 0x1_428A2F98_D728AE22);
    KFraction(1, 1, 3, 0x1_71374491_23EF65CD);
    KFraction(2, 1, 5, 0x1_B5C0FBCF_EC4D3B2F);
    KFraction(3, 1, 7, 0x1_E9B5DBA5_8189DBBC);
    KFraction(4, 2, 11, 0x2_3956C25B_F348B538);
    KFraction(5, 2, 13, 0x2_59F111F1_B605D019);
    KFraction(6, 2, 17, 0x2_923F82A4_AF194F9B);
    KFraction(7, 2, 19, 0x2_AB1C5ED5_DA6D8118);
    KFraction(8, 2, 23, 0x2_D807AA98_A3030242);
    KFraction(9, 3, 29, 0x3_12835B01_45706FBE);
  }

  lemma KFractions10()
    ensures forall i: nat :: 10 <= i < 20 ==> KIsFraction(i)
  {
    hide KIsFraction;
    KFraction(10, 3, 31, 0x3_243185BE_4EE4B28C);
    KFraction(11, 3, 37, 0x3_550C7DC3_D5FFB4E2);
    KFraction(12, 3, 41, 0x3_72BE5D74_F27B896F);
    KFraction(13, 3, 43, 0x3_80DEB1FE_3B1696B1);
    KFraction(14, 3, 47, 0x3_9BDC06A7_25C71235);
    KFraction(15, 3, 53, 0x3_C19BF174_CF692694);
    KFraction(16, 3, 59, 0x3_E49B69C1_9EF14AD2);
    KFraction(17, 3, 61, 0x3_EFBE4786_384F25E3);
    KFraction(18, 4, 67, 0x4_0FC19DC6_8B8CD5B5);
    KFraction(19, 4, 71, 0x4_240CA1CC_77AC9C65);
  }

  lemma KFractions20()
    ensures forall i: nat :: 20 <= i < 30 ==> KIsFraction(i)
  {
    hide KIsFraction;
    KFraction(20, 4, 73, 0x4_2DE92C6F_592B0275);
    KFraction(21, 4, 79, 0x4_4A7484AA_6EA6E483);
    KFraction(22, 4, 83, 0x4_5CB0A9DC_BD41FBD4);
    KFraction(23, 4, 89, 0x4_76F988DA_831153B5);
    KFraction(24, 4, 97, 0x4_983E5152_EE66DFAB);
    KFraction(25, 4, 101, 0x4_A831C66D_2DB43210);
    KFraction(26, 4, 103, 0x4_B00327C8_98FB213F);
    KFraction(27, 4, 107, 0x4_BF597FC7_BEEF0EE4);
    KFraction(28, 4, 109, 0x4_C6E00BF3_3DA88FC2);
    KFraction(29, 4, 113, 0x4_D5A79147_930AA725);
  }

  lemma KFractions30()
    ensures forall i: nat :: 30 <= i < 40 ==> KIsFraction(i)
  {
    hide KIsFraction;
    KFraction(30, 5, 127, 0x5_06CA6351_E003826F);
    KFraction(31, 5, 131, 0x5_14292967_0A0E6E70);
    KFraction(32, 5, 137, 0x5_27B70A85_46D22FFC);
    KFraction(33, 5, 139, 0x5_2E1B2138_5C26C926);
    KFraction(34, 5, 149, 0x5_4D2C6DFC_5AC42AED);
    KFraction(35, 5, 151, 0x5_53380D13_9D95B3DF);
    KFraction(36, 5, 157, 0x5_650A7354_8BAF63DE);
    KFraction(37, 5, 163, 0x5_766A0ABB_3C77B2A8);
    KFraction(38, 5, 167, 0x5_81C2C92E_47EDAEE6);
    KFraction(39, 5, 173, 0x5_92722C85_1482353B);
  }

  lemma KFractions40()
    ensures forall i: nat :: 40 <= i < 50 ==> KIsFraction(i)
  {
    hide KIsFraction;
    KFraction(40, 5, 179, 0x5_A2BFE8A1_4CF10364);
    KFraction(41, 5, 181, 0x5_A81A664B_BC423001);
    KFraction(42, 5, 191, 0x5_C24B8B70_D0F89791);
    KFraction(43, 5, 193, 0x5_C76C51A3_0654BE30);
    KFraction(44, 5, 197, 0x5_D192E819_D6EF5218);
    KFraction(45, 5, 199, 0x5_D6990624_5565A910);
    KFraction(46, 5, 211, 0x5_F40E3585_5771202A);
    KFraction(47, 6, 223, 0x6_106AA070_32BBD1B8);
    KFraction(48, 6, 227, 0x6_19A4C116_B8D2D0C8);
    KFraction(49, 6, 229, 0x6_1E376C08_5141AB53);
  }

  lemma KFractions50()
    ensures forall i: nat :: 50 <= i < 60 ==> KIsFraction(i)
  {
    hide KIsFraction;
    KFraction(50, 6, 233, 0x6_2748774C_DF8EEB99);
    KFraction(51, 6, 239, 0x6_34B0BCB5_E19B48A8);
    KFraction(52, 6, 241, 0x6_391C0CB3_C5C95A63);
    KFraction(53, 6, 251, 0x6_4ED8AA4A_E3418ACB);
    KFraction(54, 6, 257, 0x6_5B9CCA4F_7763E373);
    KFraction(55, 6, 263, 0x6_682E6FF3_D6B2B8A3);
    KFraction(56, 6, 269, 0x6_748F82EE_5DEFB2FC);
    KFraction(57, 6, 271, 0x6_78A5636F_43172F60);
    KFraction(58, 6, 277, 0x6_84C87814_A1F0AB72);
    KFraction(59, 6, 281, 0x6_8CC70208_1A6439EC);
  }

  lemma KFractions60()
    ensures forall i: nat :: 60 <= i < 70 ==> KIsFraction(i)
  {
    hide KIsFraction;
    KFraction(60, 6, 283, 0x6_90BEFFFA_23631E28);
    KFraction(61, 6, 293, 0x6_A4506CEB_DE82BDE9);
    KFraction(62, 6, 307, 0x6_BEF9A3F7_B2C67915);
    KFraction(63, 6, 311, 0x6_C67178F2_E372532B);
    KFraction(64, 6, 313, 0x6_CA273ECE_EA26619C);
    KFraction(65, 6, 317, 0x6_D186B8C7_21C0C207);
    KFraction(66, 6, 331, 0x6_EADA7DD6_CDE0EB1E);
    KFraction(67, 6, 337, 0x6_F57D4F7F_EE6ED178);
    KFraction(68, 7, 347, 0x7_06F067AA_72176FBA);
    KFraction(69, 7, 349, 0x7_0A637DC5_A2C898A6);
  }

  lemma KFractions70()
    ensures forall i: nat :: 70 <= i < 80 ==> KIsFraction(i)
  {
    hide KIsFraction;
    KFraction(70, 7, 353, 0x7_113F9804_BEF90DAE);
    KFraction(71, 7, 359, 0x7_1B710B35_131C471B);
    KFraction(72, 7, 367, 0x7_28DB77F5_23047D84);
    KFraction(73, 7, 373, 0x7_32CAAB7B_40C72493);
    KFraction(74, 7, 379, 0x7_3C9EBE0A_15C9BEBC);
    KFraction(75, 7, 383, 0x7_431D67C4_9C100D4C);
    KFraction(76, 7, 389, 0x7_4CC5D4BE_CB3E42B6);
    KFraction(77, 7, 397, 0x7_597F299C_FC657E2A);
    KFraction(78, 7, 401, 0x7_5FCB6FAB_3AD6FAEC);
    KFraction(79, 7, 409, 0x7_6C44198C_4A475817);
  }

  lemma KFraction(i: nat, whole: nat, p: nat, x: nat)
    requires i < 80 && whole < 8 && p == Prime(i) && x == TWO_64 * whole + EntryValue(KTable(i))
    requires CubeRoot(p, x)
    ensures KIsFraction(i)
  {
    hide CubeRoot, EntryValue;
  }

  /** The table of round constants is the standard's. */
  lemma KMeetsItsDefinition()
    ensures forall i: nat :: i < 80 ==> KIsFraction(i)
  {
    hide KIsFraction;
    KFractions0();
    KFractions10();
    KFractions20();
    KFractions30();
    KFractions40();
    KFractions50();
    KFractions60();
    KFractions70();
  }

  lemma HFraction(i: nat, whole: nat)
    requires i < 8 && whole < 5 && SquareRoot(Prime(i), TWO_64 * whole + EntryValue(H0Table(i)))
    ensures HIsFraction(i)
  {
    hide SquareRoot, EntryValue;
  }

  /** The initial value is the standard's. */
  lemma HMeetsItsDefinition()
    ensures forall i: nat :: i < 8 ==> HIsFraction(i)
  {
    HFraction(0, 1);
    HFraction(1, 1);
    HFraction(2, 2);
    HFraction(3, 2);
    HFraction(4, 3);
    HFraction(5, 3);
    HFraction(6, 4);
    HFraction(7, 4);
  }
}
