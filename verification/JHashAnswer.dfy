/** A published answer of the hash (src/headers/jhash.h): the key of 30 bytes in the self-test of Bob Jenkins'
    lookup3.c of May 2006, whose hashlittle the source adapts. */
module JHashAnswer {
  import opened Basics
  import opened JHash

  /** "Four score a", "nd seven yea", "rs ago" */
  const FOUR_SCORE: seq<Byte> := [70, 111, 117, 114, 32, 115, 99, 111, 114, 101, 32, 97]
  const AND_SEVEN: seq<Byte> := [110, 100, 32, 115, 101, 118, 101, 110, 32, 121, 101, 97]
  const AGO: seq<Byte> := [114, 115, 32, 97, 103, 111]

  // ---------------------------------------------------------------- words in hexadecimal

  /** A digit as its four bits, and a word as its eight digits. */
  datatype Digit = Digit(b3: bool, b2: bool, b1: bool, b0: bool)
  datatype Hex = Hex(h7: Digit, h6: Digit, h5: Digit, h4: Digit, h3: Digit, h2: Digit, h1: Digit, h0: Digit)

  const D0 := Digit(false, false, false, false)
  const D1 := Digit(false, false, false, true)
  const D2 := Digit(false, false, true, false)
  const D3 := Digit(false, false, true, true)
  const D4 := Digit(false, true, false, false)
  const D5 := Digit(false, true, false, true)
  const D6 := Digit(false, true, true, false)
  const D7 := Digit(false, true, true, true)
  const D8 := Digit(true, false, false, false)
  const D9 := Digit(true, false, false, true)
  const DA := Digit(true, false, true, false)
  const DB := Digit(true, false, true, true)
  const DC := Digit(true, true, false, false)
  const DD := Digit(true, true, false, true)
  const DE := Digit(true, true, true, false)
  const DF := Digit(true, true, true, true)

  function Bit(b: bool): nat { if b then 1 else 0 }

  function DigitValue(d: Digit): nat { 8 * Bit(d.b3) + 4 * Bit(d.b2) + 2 * Bit(d.b1) + Bit(d.b0) }

  lemma DigitValues()
    ensures DigitValue(D0) == 0 && DigitValue(D1) == 1 && DigitValue(D2) == 2 && DigitValue(D3) == 3
    ensures DigitValue(D4) == 4 && DigitValue(D5) == 5 && DigitValue(D6) == 6 && DigitValue(D7) == 7
    ensures DigitValue(D8) == 8 && DigitValue(D9) == 9 && DigitValue(DA) == 10 && DigitValue(DB) == 11
    ensures DigitValue(DC) == 12 && DigitValue(DD) == 13 && DigitValue(DE) == 14 && DigitValue(DF) == 15
  {
  }

  function Value(x: Hex): Word {
    DigitValue(x.h0) + 0x10 * DigitValue(x.h1) + 0x100 * DigitValue(x.h2) + 0x1000 * DigitValue(x.h3)
    + 0x1_0000 * DigitValue(x.h4) + 0x10_0000 * DigitValue(x.h5) + 0x100_0000 * DigitValue(x.h6)
    + 0x1000_0000 * DigitValue(x.h7)
  }

  function XorDigit(d: Digit, e: Digit): Digit {
    Digit(d.b3 != e.b3, d.b2 != e.b2, d.b1 != e.b1, d.b0 != e.b0)
  }

  function XorHex(x: Hex, y: Hex): Hex {
    Hex(XorDigit(x.h7, y.h7), XorDigit(x.h6, y.h6), XorDigit(x.h5, y.h5), XorDigit(x.h4, y.h4),
        XorDigit(x.h3, y.h3), XorDigit(x.h2, y.h2), XorDigit(x.h1, y.h1), XorDigit(x.h0, y.h0))
  }

  function Odd(p: nat, q: nat): nat { if p == q then 0 else 1 }

  lemma XorBit(x: nat, y: nat, n: nat, r: nat, p: nat, q: nat)
    requires XorBits(x, y, n) == r && p < 2 && q < 2
    ensures XorBits(2 * x + p, 2 * y + q, n + 1) == 2 * r + Odd(p, q)
  {
    hide XorBits, Pow2;
    UnfoldXor(2 * x + p, 2 * y + q, n + 1);
  }

  lemma XorFour(x: nat, y: nat, n: nat, r: nat, p3: nat, q3: nat, p2: nat, q2: nat, p1: nat, q1: nat, p0: nat, q0: nat)
    requires XorBits(x, y, n) == r
    requires p3 < 2 && q3 < 2 && p2 < 2 && q2 < 2 && p1 < 2 && q1 < 2 && p0 < 2 && q0 < 2
    ensures XorBits(16 * x + (8 * p3 + 4 * p2 + 2 * p1 + p0), 16 * y + (8 * q3 + 4 * q2 + 2 * q1 + q0), n + 4) ==
            16 * r + (8 * Odd(p3, q3) + 4 * Odd(p2, q2) + 2 * Odd(p1, q1) + Odd(p0, q0))
  {
    hide XorBits, Odd, Pow2;
    var r1 := 2 * r + Odd(p3, q3);
    var r2 := 4 * r + 2 * Odd(p3, q3) + Odd(p2, q2);
    var r3 := 8 * r + 4 * Odd(p3, q3) + 2 * Odd(p2, q2) + Odd(p1, q1);
    XorBit(x, y, n, r, p3, q3);
    XorBit(2 * x + p3, 2 * y + q3, n + 1, r1, p2, q2);
    XorBit(4 * x + 2 * p3 + p2, 4 * y + 2 * q3 + q2, n + 2, r2, p1, q1);
    XorBit(8 * x + 4 * p3 + 2 * p2 + p1, 8 * y + 4 * q3 + 2 * q2 + q1, n + 3, r3, p0, q0);
  }

  lemma XorNext(x: nat, y: nat, n: nat, r: nat, d: Digit, e: Digit)
    requires XorBits(x, y, n) == r
    ensures XorBits(16 * x + DigitValue(d), 16 * y + DigitValue(e), n + 4) == 16 * r + DigitValue(XorDigit(d, e))
  {
    hide XorBits, Pow2;
    XorFour(x, y, n, r, Bit(d.b3), Bit(e.b3), Bit(d.b2), Bit(e.b2), Bit(d.b1), Bit(e.b1), Bit(d.b0), Bit(e.b0));
    XorValue(d, e);
  }

  lemma XorValue(d: Digit, e: Digit)
    ensures DigitValue(XorDigit(d, e)) == 8 * Odd(Bit(d.b3), Bit(e.b3)) + 4 * Odd(Bit(d.b2), Bit(e.b2))
                                          + 2 * Odd(Bit(d.b1), Bit(e.b1)) + Odd(Bit(d.b0), Bit(e.b0))
  {
  }

  /** The first k digits of a word. */
  function Top(x: Hex, k: nat): nat
    requires k <= 8
  {
    if k == 0 then 0 else 16 * Top(x, k - 1) + DigitValue(DigitAt(x, k - 1))
  }

  function DigitAt(x: Hex, k: nat): Digit
    requires k < 8
  {
    if k == 0 then x.h7 else if k == 1 then x.h6 else if k == 2 then x.h5 else if k == 3 then x.h4
    else if k == 4 then x.h3 else if k == 5 then x.h2 else if k == 6 then x.h1 else x.h0
  }

  lemma {:induction false} XorTop(x: Hex, y: Hex, k: nat)
    requires k <= 8
    ensures XorBits(Top(x, k), Top(y, k), 4 * k) == Top(XorHex(x, y), k)
  {
    hide XorBits, XorDigit, DigitValue, Pow2;
    NoBits(0, 0);
    if k > 0 {
      XorTop(x, y, k - 1);
      XorNext(Top(x, k - 1), Top(y, k - 1), 4 * k - 4, Top(XorHex(x, y), k - 1), DigitAt(x, k - 1), DigitAt(y, k - 1));
    }
  }

  lemma TopIsValue(x: Hex)
    ensures Top(x, 8) == Value(x)
  {
    hide DigitValue, Top;
    TopStep(x, 0);
    TopStep(x, 1);
    TopStep(x, 2);
    TopStep(x, 3);
    TopStep(x, 4);
    TopStep(x, 5);
    TopStep(x, 6);
    TopStep(x, 7);
  }

  lemma TopStep(x: Hex, k: nat)
    requires k < 8
    ensures Top(x, 0) == 0 && Top(x, k + 1) == 16 * Top(x, k) + DigitValue(DigitAt(x, k))
  {
  }

  lemma XorByDigits(x: Hex, y: Hex)
    ensures Xor(Value(x), Value(y)) == Value(XorHex(x, y))
  {
    hide XorBits, Value, Top, XorHex;
    XorTop(x, y, 8);
    TopIsValue(x);
    TopIsValue(y);
    TopIsValue(XorHex(x, y));
  }

  /** One line of the mix: d is the difference, w the word turned by s bits. */
  lemma MixXIs(x: Word, y: Word, s: nat, p: nat, q: nat, d: Hex, w: Hex)
    requires 0 < s < 32 && p == Pow2(s) && q == Pow2(32 - s)
    requires Value(w) == y % q * p + y / q && Value(d) == (x - y) % 0x1_0000_0000
    ensures MixX(x, y, s) == Value(XorHex(d, w))
  {
    hide Pow2, XorHex, Value, Rol, Xor;
    RolRotates(y, s);
    XorByDigits(d, w);
  }

  /** One line of the end. */
  lemma FinalXIs(x: Hex, y: Hex, s: nat, p: nat, q: nat, w: Word)
    requires 0 < s < 32 && p == Pow2(s) && q == Pow2(32 - s) && w == Value(y) % q * p + Value(y) / q
    ensures FinalX(Value(x), Value(y), s) == (Value(XorHex(x, y)) - w) % 0x1_0000_0000
  {
    hide Pow2, XorHex, Value, Rol, Xor;
    RolRotates(Value(y), s);
    XorByDigits(x, y);
  }

  lemma Powers()
    ensures Pow2(4) == 0x10 && Pow2(28) == 0x1000_0000 && Pow2(6) == 0x40 && Pow2(26) == 0x400_0000
    ensures Pow2(8) == 0x100 && Pow2(24) == 0x100_0000 && Pow2(16) == 0x1_0000
    ensures Pow2(19) == 0x8_0000 && Pow2(13) == 0x2000
    ensures Pow2(14) == 0x4000 && Pow2(18) == 0x4_0000 && Pow2(11) == 0x800 && Pow2(21) == 0x20_0000
    ensures Pow2(25) == 0x200_0000 && Pow2(7) == 0x80
  {
    hide Pow2;
    Pow2Values();
    Pow2Adds(2, 2);
    Pow2Adds(4, 2);
    Pow2Adds(4, 3);
    Pow2Adds(8, 16);
    Pow2Adds(8, 3);
    Pow2Adds(6, 7);
    Pow2Adds(7, 7);
    Pow2Adds(16, 2);
    Pow2Adds(16, 3);
    Pow2Adds(14, 7);
    Pow2Adds(18, 7);
    Pow2Adds(18, 8);
    Pow2Adds(14, 14);
  }

  // ---------------------------------------------------------------- every line of the two mixes and the end

  lemma Line1()
    ensures MixX(0x5123_2e53, 0x3fce_247f, 4) == 0xedb7_4e27
  {
    hide Pow2, DigitValue, MixX;
    Powers();
    DigitValues();
    MixXIs(0x5123_2e53, 0x3fce_247f, 4, 0x10, 0x1000_0000,
           Hex(D1, D1, D5, D5, D0, D9, DD, D4), Hex(DF, DC, DE, D2, D4, D7, DF, D3));
  }

  lemma Line2()
    ensures MixX(0x4e11_322d, 0xedb7_4e27, 6) == 0x0d8a_6dfd
  {
    hide Pow2, DigitValue, MixX;
    Powers();
    DigitValues();
    MixXIs(0x4e11_322d, 0xedb7_4e27, 6, 0x40, 0x400_0000,
           Hex(D6, D0, D5, D9, DE, D4, D0, D6), Hex(D6, DD, DD, D3, D8, D9, DF, DB));
  }

  lemma Line3()
    ensures MixX(0x8ddf_56ac, 0x0d8a_6dfd, 8) == 0x0a39_15a2
  {
    hide Pow2, DigitValue, MixX;
    Powers();
    DigitValues();
    MixXIs(0x8ddf_56ac, 0x0d8a_6dfd, 8, 0x100, 0x100_0000,
           Hex(D8, D0, D5, D4, DE, D8, DA, DF), Hex(D8, DA, D6, DD, DF, DD, D0, DD));
  }

  lemma Line4()
    ensures MixX(0x7b96_a4d3, 0x0a39_15a2, 16) == 0x64ff_8508
  {
    hide Pow2, DigitValue, MixX;
    Powers();
    DigitValues();
    MixXIs(0x7b96_a4d3, 0x0a39_15a2, 16, 0x1_0000, 0x1_0000,
           Hex(D7, D1, D5, DD, D8, DF, D3, D1), Hex(D1, D5, DA, D2, D0, DA, D3, D9));
  }

  lemma Line5()
    ensures MixX(0x8921_12d0, 0x64ff_8508, 19) == 0x0c62_aa34
  {
    hide Pow2, DigitValue, MixX;
    Powers();
    DigitValues();
    MixXIs(0x8921_12d0, 0x64ff_8508, 19, 0x8_0000, 0x2000,
           Hex(D2, D4, D2, D1, D8, DD, DC, D8), Hex(D2, D8, D4, D3, D2, D7, DF, DC));
  }

  lemma Line6()
    ensures MixX(0x935a_2872, 0x0c62_aa34, 4) == 0x40dd_dd7e
  {
    hide Pow2, DigitValue, MixX;
    Powers();
    DigitValues();
    MixXIs(0x935a_2872, 0x0c62_aa34, 4, 0x10, 0x1000_0000,
           Hex(D8, D6, DF, D7, D7, DE, D3, DE), Hex(DC, D6, D2, DA, DA, D3, D4, D0));
  }

  lemma Line7()
    ensures MixX(0x6b7a_11e8, 0xa243_569e, 4) == 0xed03_d2a0
  {
    hide Pow2, DigitValue, MixX;
    Powers();
    DigitValues();
    MixXIs(0x6b7a_11e8, 0xa243_569e, 4, 0x10, 0x1000_0000,
           Hex(DC, D9, D3, D6, DB, DB, D4, DA), Hex(D2, D4, D3, D5, D6, D9, DE, DA));
  }

  lemma Line8()
    ensures MixX(0x7321_ce13, 0xed03_d2a0, 6) == 0xc6e9_5348
  {
    hide Pow2, DigitValue, MixX;
    Powers();
    DigitValues();
    MixXIs(0x7321_ce13, 0xed03_d2a0, 6, 0x40, 0x400_0000,
           Hex(D8, D6, D1, DD, DF, DB, D7, D3), Hex(D4, D0, DF, D4, DA, D8, D3, DB));
  }

  lemma Line9()
    ensures MixX(0x1565_24b1, 0xc6e9_5348, 8) == 0xa728_99af
  {
    hide Pow2, DigitValue, MixX;
    Powers();
    DigitValues();
    MixXIs(0x1565_24b1, 0xc6e9_5348, 8, 0x100, 0x100_0000,
           Hex(D4, DE, D7, DB, DD, D1, D6, D9), Hex(DE, D9, D5, D3, D4, D8, DC, D6));
  }

  lemma Line10()
    ensures MixX(0x0268_f751, 0xa728_99af, 16) == 0xc2ef_fa8a
  {
    hide Pow2, DigitValue, MixX;
    Powers();
    DigitValues();
    MixXIs(0x0268_f751, 0xa728_99af, 16, 0x1_0000, 0x1_0000,
           Hex(D5, DB, D4, D0, D5, DD, DA, D2), Hex(D9, D9, DA, DF, DA, D7, D2, D8));
  }

  lemma Line11()
    ensures MixX(0xc952_4a99, 0xc2ef_fa8a, 19) == 0xd234_4770
  {
    hide Pow2, DigitValue, MixX;
    Powers();
    DigitValues();
    MixXIs(0xc952_4a99, 0xc2ef_fa8a, 19, 0x8_0000, 0x2000,
           Hex(D0, D6, D6, D2, D5, D0, D0, DF), Hex(DD, D4, D5, D6, D1, D7, D7, DF));
  }

  lemma Line12()
    ensures MixX(0x707a_e448, 0xd234_4770, 4) == 0xbd02_ebd5
  {
    hide Pow2, DigitValue, MixX;
    Powers();
    DigitValues();
    MixXIs(0x707a_e448, 0xd234_4770, 4, 0x10, 0x1000_0000,
           Hex(D9, DE, D4, D6, D9, DC, DD, D8), Hex(D2, D3, D4, D4, D7, D7, D0, DD));
  }

  lemma Line13()
    ensures FinalX(0xbd02_ebd5, 0x059f_95a9, 14) == 0xd333_3d15
  {
    hide Pow2, DigitValue, FinalX;
    Powers();
    DigitValues();
    FinalXIs(Hex(DB, DD, D0, D2, DE, DB, DD, D5), Hex(D0, D5, D9, DF, D9, D5, DA, D9),
             14, 0x4000, 0x4_0000, 0xe56a_4167);
  }

  lemma Line14()
    ensures FinalX(0x948b_5244, 0xd333_3d15, 11) == 0xadcf_c0b8
  {
    hide Pow2, DigitValue, FinalX;
    Powers();
    DigitValues();
    FinalXIs(Hex(D9, D4, D8, DB, D5, D2, D4, D4), Hex(DD, D3, D3, D3, D3, DD, D1, D5),
             11, 0x800, 0x20_0000, 0x99e8_ae99);
  }

  lemma Line15()
    ensures FinalX(0x059f_95a9, 0xadcf_c0b8, 25) == 0x36f4_b590
  {
    hide Pow2, DigitValue, FinalX;
    Powers();
    DigitValues();
    FinalXIs(Hex(D0, D5, D9, DF, D9, D5, DA, D9), Hex(DA, DD, DC, DF, DC, D0, DB, D8),
             25, 0x200_0000, 0x80, 0x715b_9f81);
  }

  lemma Line16()
    ensures FinalX(0xd333_3d15, 0x36f4_b590, 16) == 0x3037_5191
  {
    hide Pow2, DigitValue, FinalX;
    Powers();
    DigitValues();
    FinalXIs(Hex(DD, D3, D3, D3, D3, DD, D1, D5), Hex(D3, D6, DF, D4, DB, D5, D9, D0),
             16, 0x1_0000, 0x1_0000, 0xb590_36f4);
  }

  lemma Line17()
    ensures FinalX(0xadcf_c0b8, 0x3037_5191, 4) == 0x9a83_7816
  {
    hide Pow2, DigitValue, FinalX;
    Powers();
    DigitValues();
    FinalXIs(Hex(DA, DD, DC, DF, DC, D0, DB, D8), Hex(D3, D0, D3, D7, D5, D1, D9, D1),
             4, 0x10, 0x1000_0000, 0x0375_1913);
  }

  lemma Line18()
    ensures FinalX(0x36f4_b590, 0x9a83_7816, 14) == 0xce72_26e6
  {
    hide Pow2, DigitValue, FinalX;
    Powers();
    DigitValues();
    FinalXIs(Hex(D3, D6, DF, D4, DB, D5, D9, D0), Hex(D9, DA, D8, D3, D7, D8, D1, D6),
             14, 0x4000, 0x4_0000, 0xde05_a6a0);
  }

  lemma Line19()
    ensures FinalX(0x3037_5191, 0xce72_26e6, 24) == 0x1777_0551
  {
    hide Pow2, DigitValue, FinalX;
    Powers();
    DigitValues();
    FinalXIs(Hex(D3, D0, D3, D7, D5, D1, D9, D1), Hex(DC, DE, D7, D2, D2, D6, DE, D6),
             24, 0x100_0000, 0x100, 0xe6ce_7226);
  }

  lemma FirstMix()
    ensures Mix(Triple(0x5123_2e53, 0x4e11_322d, 0x3fce_247f)) == Triple(0xf859_ad7a, 0x04bc_57ae, 0x40dd_dd7e)
  {
    hide MixX;
    Line1();
    Line2();
    Line3();
    Line4();
    Line5();
    Line6();
  }

  lemma SecondMix()
    ensures Mix(Triple(0x6b7a_11e8, 0x7321_ce13, 0xa243_569e)) == Triple(0x336a_ded2, 0x059f_2642, 0xbd02_ebd5)
  {
    hide MixX;
    Line7();
    Line8();
    Line9();
    Line10();
    Line11();
    Line12();
  }

  lemma LastPart()
    ensures Final(Triple(0x948b_5244, 0x059f_95a9, 0xbd02_ebd5)) == Triple(0x9a83_7816, 0xce72_26e6, 0x1777_0551)
  {
    hide FinalX;
    Line13();
    Line14();
    Line15();
    Line16();
    Line17();
    Line18();
    Line19();
  }

  // ---------------------------------------------------------------- the key

  lemma Loads(k: seq<Byte>, rest: seq<Byte>, t: Triple, u: Triple)
    requires |k| == 12 && rest != []
    requires u == Mix(Add(t, Join(k[0], k[1], k[2], k[3]), Join(k[4], k[5], k[6], k[7]),
                          Join(k[8], k[9], k[10], k[11])))
    ensures BytesFrom(t, k + rest) == BytesFrom(u, rest)
  {
    hide Mix, Final, AddBytes, Add;
    var all := k + rest;
    assert all[12..] == rest;
    assert forall i :: 0 <= i < 12 ==> all[i] == k[i];
  }

  lemma LastBytes(t: Triple)
    requires t == Triple(0x336a_ded2, 0x059f_2642, 0xbd02_ebd5)
    ensures BytesFrom(t, AGO) == Triple(0x9a83_7816, 0xce72_26e6, 0x1777_0551)
  {
    hide Mix, Final, Pow2, Shl;
    Shls(114);
    Shls(115);
    Shls(32);
    Shls(97);
    Shls(103);
    Shls(111);
    LastPart();
  }

  /** jhash("Four score and seven years ago", 30, 0) == 0x1777_0551 */
  lemma PublishedAnswer()
    ensures var key := FOUR_SCORE + AND_SEVEN + AGO;
            |key| == 30 && BytesFrom(Seed(30, 0), key).c == 0x1777_0551
  {
    hide Mix, Final, BytesFrom, AddBytes;
    FirstMix();
    SecondMix();
    assert FOUR_SCORE + AND_SEVEN + AGO == FOUR_SCORE + (AND_SEVEN + AGO);
    Loads(FOUR_SCORE, AND_SEVEN + AGO, Seed(30, 0), Triple(0xf859_ad7a, 0x04bc_57ae, 0x40dd_dd7e));
    Loads(AND_SEVEN, AGO, Triple(0xf859_ad7a, 0x04bc_57ae, 0x40dd_dd7e), Triple(0x336a_ded2, 0x059f_2642, 0xbd02_ebd5));
    LastBytes(Triple(0x336a_ded2, 0x059f_2642, 0xbd02_ebd5));
  }
}
