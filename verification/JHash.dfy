/** The Jenkins hash on bytes and on words (src/headers/jhash.h). */
module JHash {
  import opened Basics

  const WRAP: nat := 0x1_0000_0000

  /** A 32-bit word, and a byte. */
  type Word = x: nat | x < WRAP
  type Byte = x: nat | x < 256

  const INITVAL: Word := 0xdead_beef

  datatype Triple = Triple(a: Word, b: Word, c: Word)

  // ---------------------------------------------------------------- 32-bit operations

  function Plus(x: Word, y: Word): Word { (x + y) % WRAP }
  function Minus(x: Word, y: Word): Word { (x - y) % WRAP }

  /** Exclusive or, and or, of the n low bits. */
  function XorBits(x: nat, y: nat, n: nat): (r: nat)
    ensures r < Pow2(n)
  {
    if n == 0 then 0 else 2 * XorBits(x / 2, y / 2, n - 1) + (x + y) % 2
  }

  function OrBits(x: nat, y: nat, n: nat): (r: nat)
    ensures r < Pow2(n)
  {
    if n == 0 then 0 else 2 * OrBits(x / 2, y / 2, n - 1) + (if x % 2 == 1 || y % 2 == 1 then 1 else 0)
  }

  lemma Pow32()
    ensures Pow2(32) == WRAP
  {
    Pow2Values();
  }

  function Xor(x: Word, y: Word): Word { Pow32(); XorBits(x, y, 32) }

  /** (word << shift) | (word >> ((-shift) & 31)), for shifts below 32 */
  function Rol(w: Word, shift: nat): Word
    requires 0 < shift < 32
  {
    Pow32();
    OrBits(Left(w, shift), Right(w, 32 - shift), 32)
  }

  function Left(w: nat, s: nat): nat { w * Pow2(s) % WRAP }
  function Right(w: nat, s: nat): nat { Quotient(w, Pow2(s)) }

  lemma PlusMinus(x: Word, y: Word)
    ensures Minus(Plus(x, y), y) == x && Plus(Minus(x, y), y) == x
  {
    Wrapped(x + y);
    Wrapped(x - y);
    Wrapped((x + y) % WRAP - y);
    Wrapped((x - y) % WRAP + y);
  }

  lemma Wrapped(v: int)
    requires 0 - WRAP <= v < 2 * WRAP
    ensures v % WRAP == if v < 0 then v + WRAP else if v < WRAP then v else v - WRAP
  {
  }

  lemma Parity(x: nat, y: nat)
    ensures ((x + y) % 2 + y) % 2 == x % 2
  {
  }

  lemma UnfoldXor(x: nat, y: nat, n: nat)
    requires n > 0
    ensures XorBits(x, y, n) == 2 * XorBits(x / 2, y / 2, n - 1) + (x + y) % 2
  {
  }

  lemma NoBits(x: nat, y: nat)
    ensures XorBits(x, y, 0) == 0
  {
  }

  lemma LowAndHigh(h: nat, b: nat)
    requires b < 2
    ensures (2 * h + b) / 2 == h && (2 * h + b) % 2 == b
  {
  }

  lemma {:induction false} XorBitsTwice(x: nat, y: nat, n: nat)
    ensures XorBits(XorBits(x, y, n), y, n) == x % Pow2(n)
  {
    hide XorBits, Pow2;
    UnfoldPow2(n);
    if n == 0 {
      NoBits(XorBits(x, y, n), y);
    } else {
      var r, h, b := XorBits(x, y, n), XorBits(x / 2, y / 2, n - 1), (x + y) % 2;
      UnfoldXor(x, y, n);
      LowAndHigh(h, b);
      UnfoldXor(r, y, n);
      XorBitsTwice(x / 2, y / 2, n - 1);
      HalfRemainder(x, Pow2(n - 1));
      Parity(x, y);
      LowBit(r, b, y);
    }
  }

  lemma LowBit(r: nat, b: nat, y: nat)
    requires r % 2 == b
    ensures (r + y) % 2 == (b + y) % 2
  {
  }

  lemma XorTwice(x: Word, y: Word)
    ensures Xor(Xor(x, y), y) == x
  {
    hide XorBits, Pow2;
    Pow32();
    XorBitsTwice(x, y, 32);
  }

  lemma PlusZero(x: Word)
    ensures Plus(x, 0) == x
  {
  }

  lemma PlusSwaps(x: Word, y: Word, z: Word)
    ensures Plus(x, y) == Plus(y, x) && Plus(Plus(x, y), z) == Plus(x, Plus(y, z))
  {
    WrapOnce(x + y, z);
    WrapOnce(y + z, x);
  }

  lemma UnfoldOr(x: nat, y: nat, n: nat)
    ensures OrBits(x, y, 0) == 0
    ensures n > 0 ==> OrBits(x, y, n) == 2 * OrBits(x / 2, y / 2, n - 1) + (if x % 2 == 1 || y % 2 == 1 then 1 else 0)
  {
  }

  /** Bits that do not overlap: or is addition. */
  lemma {:induction false} OrIsSum(x: nat, y: nat, s: nat, n: nat)
    requires s <= n && x % Pow2(s) == 0 && y < Pow2(s) && x < Pow2(n)
    ensures OrBits(x, y, n) == x + y
    decreases n
  {
    hide OrBits, Pow2;
    UnfoldOr(x, y, n);
    UnfoldPow2(n);
    UnfoldPow2(s);
    if n > 0 {
      if s == 0 {
        assert x / 2 % Pow2(0) == 0;
        OrIsSum(x / 2, 0, 0, n - 1);
      } else {
        HalfRemainder(x, Pow2(s - 1));
        OrIsSum(x / 2, y / 2, s - 1, n - 1);
      }
    }
  }

  /** The rotation moves the high bits below the low ones. */
  lemma RolRotates(w: Word, s: nat)
    requires 0 < s < 32
    ensures Rol(w, s) == w % Pow2(32 - s) * Pow2(s) + w / Pow2(32 - s)
  {
    hide Pow2, OrBits;
    var lo, hi, p, q := w % Pow2(32 - s), w / Pow2(32 - s), Pow2(s), Pow2(32 - s);
    Pow32();
    Pow2Adds(s, 32 - s);
    assert w == q * hi + lo;
    Shifted(w, p, q, hi, lo);
    Multiple(lo, p);
    HighFits(hi, lo, p, q);
    OrIsSum(lo * p, hi, s, 32);
  }

  lemma Multiple(k: nat, p: nat)
    requires p > 0
    ensures k * p % p == 0
  {
    Division(k * p, p, k, 0);
  }

  lemma Shifted(w: nat, p: nat, q: nat, hi: nat, lo: nat)
    requires p > 0 && q > 0 && w == q * hi + lo && lo < q && p * q == WRAP
    ensures w * p % WRAP == lo * p && lo * p < WRAP
  {
    assert w * p == (q * hi) * p + lo * p;
    assert (q * hi) * p == (p * q) * hi;
    Gap(p, lo, q);
    assert lo * p == p * lo;
    Division(w * p, WRAP, hi, lo * p);
  }

  lemma HighFits(hi: nat, lo: nat, p: nat, q: nat)
    requires p > 0 && q > 0 && p * q == WRAP && q * hi + lo < WRAP
    ensures hi < p
  {
    assert q * p == p * q;
    if hi > p {
      Gap(q, p, hi);
    }
  }

  // ---------------------------------------------------------------- mixing

  /** x -= y; x ^= rol32(y, s); y += z */
  function MixX(x: Word, y: Word, s: nat): Word
    requires 0 < s < 32
  {
    Xor(Minus(x, y), Rol(y, s))
  }

  function UnmixX(x: Word, y: Word, s: nat): Word
    requires 0 < s < 32
  {
    Plus(Xor(x, Rol(y, s)), y)
  }

  /** x ^= y; x -= rol32(y, s) */
  function FinalX(x: Word, y: Word, s: nat): Word
    requires 0 < s < 32
  {
    Minus(Xor(x, y), Rol(y, s))
  }

  function UnfinalX(x: Word, y: Word, s: nat): Word
    requires 0 < s < 32
  {
    Xor(Plus(x, Rol(y, s)), y)
  }

  /** The three kinds of lines of __jhash_mix, which turn the roles of a, b and c. */
  function MixA(t: Triple, s: nat): Triple requires 0 < s < 32 { Triple(MixX(t.a, t.c, s), t.b, Plus(t.c, t.b)) }
  function MixB(t: Triple, s: nat): Triple requires 0 < s < 32 { Triple(Plus(t.a, t.c), MixX(t.b, t.a, s), t.c) }
  function MixC(t: Triple, s: nat): Triple requires 0 < s < 32 { Triple(t.a, Plus(t.b, t.a), MixX(t.c, t.b, s)) }

  function UnmixA(t: Triple, s: nat): Triple
    requires 0 < s < 32
  {
    var c := Minus(t.c, t.b);
    Triple(UnmixX(t.a, c, s), t.b, c)
  }

  function UnmixB(t: Triple, s: nat): Triple
    requires 0 < s < 32
  {
    var a := Minus(t.a, t.c);
    Triple(a, UnmixX(t.b, a, s), t.c)
  }

  function UnmixC(t: Triple, s: nat): Triple
    requires 0 < s < 32
  {
    var b := Minus(t.b, t.a);
    Triple(t.a, b, UnmixX(t.c, b, s))
  }

  function Mix(t: Triple): Triple {
    MixC(MixB(MixA(MixC(MixB(MixA(t, 4), 6), 8), 16), 19), 4)
  }

  function Unmix(t: Triple): Triple {
    UnmixA(UnmixB(UnmixC(UnmixA(UnmixB(UnmixC(t, 4), 19), 16), 8), 6), 4)
  }

  function FinalC(t: Triple, s: nat): Triple requires 0 < s < 32 { t.(c := FinalX(t.c, t.b, s)) }
  function FinalA(t: Triple, s: nat): Triple requires 0 < s < 32 { t.(a := FinalX(t.a, t.c, s)) }
  function FinalB(t: Triple, s: nat): Triple requires 0 < s < 32 { t.(b := FinalX(t.b, t.a, s)) }

  function UnfinalC(t: Triple, s: nat): Triple requires 0 < s < 32 { t.(c := UnfinalX(t.c, t.b, s)) }
  function UnfinalA(t: Triple, s: nat): Triple requires 0 < s < 32 { t.(a := UnfinalX(t.a, t.c, s)) }
  function UnfinalB(t: Triple, s: nat): Triple requires 0 < s < 32 { t.(b := UnfinalX(t.b, t.a, s)) }

  function Final(t: Triple): Triple {
    FinalC(FinalB(FinalA(FinalC(FinalB(FinalA(FinalC(t, 14), 11), 25), 16), 4), 14), 24)
  }

  function Unfinal(t: Triple): Triple {
    UnfinalC(UnfinalA(UnfinalB(UnfinalC(UnfinalA(UnfinalB(UnfinalC(t, 24), 14), 4), 16), 25), 11), 14)
  }

  /** The rotated word is the same before and after, so each line can be taken back. */
  lemma MixXs(x: Word, y: Word, s: nat)
    requires 0 < s < 32
    ensures UnmixX(MixX(x, y, s), y, s) == x && MixX(UnmixX(x, y, s), y, s) == x
    ensures FinalX(UnfinalX(x, y, s), y, s) == x && UnfinalX(FinalX(x, y, s), y, s) == x
  {
    hide Rol, Plus, Minus, Xor;
    var r := Rol(y, s);
    XorTwice(Minus(x, y), r);
    PlusMinus(x, y);
    PlusMinus(Xor(x, r), y);
    XorTwice(x, r);
    XorTwice(Plus(x, r), y);
    PlusMinus(x, r);
    PlusMinus(Xor(x, y), r);
    XorTwice(x, y);
  }

  lemma MixLines(t: Triple, s: nat)
    requires 0 < s < 32
    ensures UnmixA(MixA(t, s), s) == t && MixA(UnmixA(t, s), s) == t
    ensures UnmixB(MixB(t, s), s) == t && MixB(UnmixB(t, s), s) == t
    ensures UnmixC(MixC(t, s), s) == t && MixC(UnmixC(t, s), s) == t
  {
    hide MixX, UnmixX, Plus, Minus;
    PlusMinus(t.c, t.b);
    PlusMinus(t.a, t.c);
    PlusMinus(t.b, t.a);
    MixXs(t.a, t.c, s);
    MixXs(t.b, t.a, s);
    MixXs(t.c, t.b, s);
    MixXs(t.a, Minus(t.c, t.b), s);
    MixXs(t.b, Minus(t.a, t.c), s);
    MixXs(t.c, Minus(t.b, t.a), s);
  }

  lemma FinalLines(t: Triple, s: nat)
    requires 0 < s < 32
    ensures UnfinalA(FinalA(t, s), s) == t && FinalA(UnfinalA(t, s), s) == t
    ensures UnfinalB(FinalB(t, s), s) == t && FinalB(UnfinalB(t, s), s) == t
    ensures UnfinalC(FinalC(t, s), s) == t && FinalC(UnfinalC(t, s), s) == t
  {
    hide FinalX, UnfinalX;
    MixXs(t.a, t.c, s);
    MixXs(t.b, t.a, s);
    MixXs(t.c, t.b, s);
  }

  /** __jhash_mix is a bijection on triples of words. */
  lemma MixBijective(t: Triple)
    ensures Unmix(Mix(t)) == t && Mix(Unmix(t)) == t
  {
    hide MixA, MixB, MixC, UnmixA, UnmixB, UnmixC;
    var m1 := MixA(t, 4);
    var m2 := MixB(m1, 6);
    var m3 := MixC(m2, 8);
    var m4 := MixA(m3, 16);
    var m5 := MixB(m4, 19);
    MixLines(t, 4);
    MixLines(m1, 6);
    MixLines(m2, 8);
    MixLines(m3, 16);
    MixLines(m4, 19);
    MixLines(m5, 4);
    var u1 := UnmixC(t, 4);
    var u2 := UnmixB(u1, 19);
    var u3 := UnmixA(u2, 16);
    var u4 := UnmixC(u3, 8);
    var u5 := UnmixB(u4, 6);
    MixLines(u1, 19);
    MixLines(u2, 16);
    MixLines(u3, 8);
    MixLines(u4, 6);
    MixLines(u5, 4);
  }

  /** __jhash_final is a bijection on triples of words. */
  lemma FinalBijective(t: Triple)
    ensures Unfinal(Final(t)) == t && Final(Unfinal(t)) == t
  {
    hide FinalA, FinalB, FinalC, UnfinalA, UnfinalB, UnfinalC;
    var m1 := FinalC(t, 14);
    var m2 := FinalA(m1, 11);
    var m3 := FinalB(m2, 25);
    var m4 := FinalC(m3, 16);
    var m5 := FinalA(m4, 4);
    var m6 := FinalB(m5, 14);
    FinalLines(t, 14);
    FinalLines(m1, 11);
    FinalLines(m2, 25);
    FinalLines(m3, 16);
    FinalLines(m4, 4);
    FinalLines(m5, 14);
    FinalLines(m6, 24);
    var u1 := UnfinalC(t, 24);
    var u2 := UnfinalB(u1, 14);
    var u3 := UnfinalA(u2, 4);
    var u4 := UnfinalC(u3, 16);
    var u5 := UnfinalB(u4, 25);
    var u6 := UnfinalA(u5, 11);
    FinalLines(t, 24);
    FinalLines(u1, 14);
    FinalLines(u2, 4);
    FinalLines(u3, 16);
    FinalLines(u4, 25);
    FinalLines(u5, 11);
    FinalLines(u6, 14);
  }

  /** So two states that collide after mixing or finishing collided before. */
  lemma NoNewCollisions(t: Triple, u: Triple)
    ensures (Mix(t) == Mix(u) <==> t == u) && (Final(t) == Final(u) <==> t == u)
  {
    hide Mix, Final, Unmix, Unfinal;
    MixBijective(t);
    MixBijective(u);
    FinalBijective(t);
    FinalBijective(u);
  }

  // ---------------------------------------------------------------- hashing words

  function Add(t: Triple, x: Word, y: Word, z: Word): Triple { Triple(Plus(t.a, x), Plus(t.b, y), Plus(t.c, z)) }

  function WordsFrom(t: Triple, k: seq<Word>): Triple
    decreases |k|
  {
    if |k| > 3 then WordsFrom(Mix(Add(t, k[0], k[1], k[2])), k[3..])
    else if k == [] then t
    else Final(Add(t, k[0], if |k| > 1 then k[1] else 0, if |k| > 2 then k[2] else 0))
  }

  function Seed(bytes: nat, initval: Word): Triple {
    var x := Plus(Plus(INITVAL, bytes % WRAP), initval);
    Triple(x, x, x)
  }

  method Jhash2(key: seq<Word>, initval: Word) returns (hash: Word)
    requires |key| < WRAP
    ensures hash == WordsFrom(Seed(4 * |key|, initval), key).c
  {
    hide Mix, Final, Seed, Plus;
    var t := Seed(4 * |key|, initval);
    ghost var start := t;
    var k, length := 0, |key|;
    while length > 3
      invariant 0 <= length == |key| - k && 0 <= k
      invariant WordsFrom(t, key[k..]) == WordsFrom(start, key)
    {
      assert key[k..][3..] == key[k + 3..];
      t := Mix(Add(t, key[k], key[k + 1], key[k + 2]));
      length, k := length - 3, k + 3;
    }
    if length == 0 {
      return t.c;
    }
    var c := if length >= 3 then Plus(t.c, key[k + 2]) else t.c;
    var b := if length >= 2 then Plus(t.b, key[k + 1]) else t.b;
    var a := Plus(t.a, key[k]);
    AddNothing(t);
    hash := Final(Triple(a, b, c)).c;
  }

  lemma AddNothing(t: Triple)
    ensures Plus(t.a, 0) == t.a && Plus(t.b, 0) == t.b && Plus(t.c, 0) == t.c
  {
    PlusZero(t.a);
    PlusZero(t.b);
    PlusZero(t.c);
  }

  // ---------------------------------------------------------------- hashing bytes

  function Part(k: seq<Byte>, i: nat, shift: nat): Word
    requires shift < 32
  {
    if i < |k| then Shl(k[i], shift) else 0
  }

  function Shl(x: Byte, shift: nat): Word
    requires shift < 32
  {
    x * Pow2(shift) % WRAP
  }

  lemma Shls(x: Byte)
    ensures Shl(x, 0) == x && Shl(x, 8) == 0x100 * x && Shl(x, 16) == 0x1_0000 * x && Shl(x, 24) == 0x100_0000 * x
  {
    hide Pow2;
    Pow2Values();
    UnfoldPow2(0);
    Pow2Adds(8, 16);
  }

  /** Adds up to four bytes from position o on, highest first, as the fall-through switch does. */
  function AddBytes(x: Word, k: seq<Byte>, o: nat): Word {
    Plus(Plus(Plus(Plus(x, Part(k, o + 3, 24)), Part(k, o + 2, 16)), Part(k, o + 1, 8)), Part(k, o, 0))
  }

  /** The word in memory at position o, low byte first. */
  function Load(k: seq<Byte>, o: nat): Word
    requires o + 4 <= |k|
  {
    Join(k[o], k[o + 1], k[o + 2], k[o + 3])
  }

  function Join(b0: Byte, b1: Byte, b2: Byte, b3: Byte): Word { b0 + 0x100 * b1 + 0x1_0000 * b2 + 0x100_0000 * b3 }

  function BytesFrom(t: Triple, k: seq<Byte>): Triple
    decreases |k|
  {
    if |k| > 12 then BytesFrom(Mix(Add(t, Load(k, 0), Load(k, 4), Load(k, 8))), k[12..])
    else if k == [] then t
    else Final(Triple(AddBytes(t.a, k, 0), AddBytes(t.b, k, 4), AddBytes(t.c, k, 8)))
  }

  method Jhash(key: seq<Byte>, initval: Word) returns (hash: Word)
    requires |key| < WRAP
    ensures hash == BytesFrom(Seed(|key|, initval), key).c
  {
    hide Mix, Final, Seed, Load;
    var t := Seed(|key|, initval);
    ghost var start := t;
    var k, length := 0, |key|;
    while length > 12
      invariant 0 <= length == |key| - k && 0 <= k
      invariant BytesFrom(t, key[k..]) == BytesFrom(start, key)
    {
      assert key[k..][12..] == key[k + 12..];
      var rest := key[k..];
      t := Mix(Add(t, Load(rest, 0), Load(rest, 4), Load(rest, 8)));
      length, k := length - 12, k + 12;
    }
    if length == 0 {
      return t.c;
    }
    var rest := key[k..];
    var c := AddTail(t.c, rest, 8);
    var b := AddTail(t.b, rest, 4);
    var a := AddTail(t.a, rest, 0);
    hash := Final(Triple(a, b, c)).c;
  }

  /** Four cases of the switch, entered where the key ends. */
  method AddTail(x: Word, k: seq<Byte>, o: nat) returns (y: Word)
    ensures y == AddBytes(x, k, o)
  {
    hide Plus, Shl;
    PlusZero(x);
    y := x;
    if |k| >= o + 4 {
      y := Plus(y, Shl(k[o + 3], 24));
    }
    PlusZero(y);
    if |k| >= o + 3 {
      y := Plus(y, Shl(k[o + 2], 16));
    }
    PlusZero(y);
    if |k| >= o + 2 {
      y := Plus(y, Shl(k[o + 1], 8));
    }
    PlusZero(y);
    if |k| >= o + 1 {
      y := Plus(y, Shl(k[o], 0));
    }
  }

  // ---------------------------------------------------------------- bytes against words

  function WordBytes(w: Word): seq<Byte> { [w % 256, w / 0x100 % 256, w / 0x1_0000 % 256, w / 0x100_0000] }

  function Bytes(ws: seq<Word>): (k: seq<Byte>)
    ensures |k| == 4 * |ws|
  {
    if ws == [] then [] else WordBytes(ws[0]) + Bytes(ws[1..])
  }

  lemma SplitJoin(w: Word)
    ensures var b := WordBytes(w); Join(b[0], b[1], b[2], b[3]) == w
  {
    var h, g := w / 0x100, w / 0x1_0000;
    assert w == 0x100 * h + w % 0x100 && h == 0x100 * g + h % 0x100 && g == 0x100 * (w / 0x100_0000) + g % 0x100;
  }

  lemma SplitSum(x: Word, b0: Byte, b1: Byte, b2: Byte, b3: Byte)
    ensures Plus(Plus(Plus(Plus(x, Shl(b3, 24)), Shl(b2, 16)), Shl(b1, 8)), Shl(b0, 0)) == Plus(x, Join(b0, b1, b2, b3))
  {
    hide Shl;
    Shls(b0);
    Shls(b1);
    Shls(b2);
    Shls(b3);
    var y3 := x + 0x100_0000 * b3;
    var y2 := y3 + 0x1_0000 * b2;
    WrapOnce(y3, 0x1_0000 * b2);
    WrapOnce(y2, 0x100 * b1);
    WrapOnce(y2 + 0x100 * b1, b0);
  }

  lemma WrapOnce(x: nat, y: nat)
    ensures (x % WRAP + y) % WRAP == (x + y) % WRAP
  {
  }

  lemma {:induction false} BytesAt(ws: seq<Word>, i: nat)
    requires i < |ws|
    ensures Bytes(ws)[4 * i..4 * i + 4] == WordBytes(ws[i])
  {
    if i > 0 {
      BytesAt(ws[1..], i - 1);
      assert Bytes(ws)[4 * i..4 * i + 4] == Bytes(ws[1..])[4 * (i - 1)..4 * (i - 1) + 4];
    }
  }

  /** Reading word i, or adding its four bytes, gives the word. */
  lemma WordAt(ws: seq<Word>, i: nat, x: Word)
    requires i < |ws|
    ensures Load(Bytes(ws), 4 * i) == ws[i] && AddBytes(x, Bytes(ws), 4 * i) == Plus(x, ws[i])
  {
    hide Plus, Shl, Join, Bytes;
    BytesAt(ws, i);
    var k, o := Bytes(ws), 4 * i;
    var four := k[o..o + 4];
    assert four == WordBytes(ws[i]);
    assert k[o] == four[0] && k[o + 1] == four[1] && k[o + 2] == four[2] && k[o + 3] == four[3];
    SplitJoin(ws[i]);
    SplitSum(x, four[0], four[1], four[2], four[3]);
  }

  lemma NoBytes(x: Word, k: seq<Byte>, o: nat)
    requires |k| <= o
    ensures AddBytes(x, k, o) == x
  {
    hide Plus;
    PlusZero(x);
  }

  lemma {:induction false} BytesDrop(ws: seq<Word>, i: nat)
    requires i <= |ws|
    ensures Bytes(ws)[4 * i..] == Bytes(ws[i..])
  {
    if i > 0 {
      BytesDrop(ws[1..], i - 1);
      assert ws[1..][i - 1..] == ws[i..];
      assert Bytes(ws)[4 * i..] == Bytes(ws[1..])[4 * (i - 1)..];
    } else {
      assert ws[0..] == ws;
    }
  }

  lemma {:induction false} FromAgree(t: Triple, ws: seq<Word>)
    ensures BytesFrom(t, Bytes(ws)) == WordsFrom(t, ws)
    decreases |ws|
  {
    hide Mix, Final, Load, AddBytes, Bytes;
    var k := Bytes(ws);
    if |ws| > 3 {
      WordAt(ws, 0, 0);
      WordAt(ws, 1, 0);
      WordAt(ws, 2, 0);
      BytesDrop(ws, 3);
      FromAgree(Mix(Add(t, ws[0], ws[1], ws[2])), ws[3..]);
    } else if |ws| > 0 {
      TailAgrees(t, ws);
    }
  }

  lemma TailAgrees(t: Triple, ws: seq<Word>)
    requires 0 < |ws| <= 3
    ensures Triple(AddBytes(t.a, Bytes(ws), 0), AddBytes(t.b, Bytes(ws), 4), AddBytes(t.c, Bytes(ws), 8)) ==
            Add(t, ws[0], if |ws| > 1 then ws[1] else 0, if |ws| > 2 then ws[2] else 0)
  {
    hide AddBytes, Bytes, Plus;
    AddNothing(t);
    WordAt(ws, 0, t.a);
    if |ws| > 1 {
      WordAt(ws, 1, t.b);
    } else {
      NoBytes(t.b, Bytes(ws), 4);
    }
    if |ws| > 2 {
      WordAt(ws, 2, t.c);
    } else {
      NoBytes(t.c, Bytes(ws), 8);
    }
  }

  /** The hash of the little-endian bytes of a word sequence is the hash of the words. */
  lemma BytesHashLikeWords(ws: seq<Word>, initval: Word)
    ensures BytesFrom(Seed(|Bytes(ws)|, initval), Bytes(ws)).c == WordsFrom(Seed(4 * |ws|, initval), ws).c
  {
    FromAgree(Seed(4 * |ws|, initval), ws);
  }

  // ---------------------------------------------------------------- fixed numbers of words

  function NWords(a: Word, b: Word, c: Word, initval: Word): Word {
    Final(Triple(Plus(a, initval), Plus(b, initval), Plus(c, initval))).c
  }

  function Jhash3words(a: Word, b: Word, c: Word, initval: Word): Word {
    NWords(a, b, c, Plus(Plus(initval, INITVAL), 12))
  }
  function Jhash2words(a: Word, b: Word, initval: Word): Word { NWords(a, b, 0, Plus(Plus(initval, INITVAL), 8)) }
  function Jhash1word(a: Word, initval: Word): Word { NWords(a, 0, 0, Plus(Plus(initval, INITVAL), 4)) }

  lemma Commute(x: Word, n: Word, iv: Word)
    ensures Plus(x, Plus(Plus(iv, INITVAL), n)) == Plus(Plus(Plus(INITVAL, n), iv), x)
  {
    hide Plus;
    PlusSwaps(iv, INITVAL, n);
    PlusSwaps(iv, Plus(INITVAL, n), x);
    PlusSwaps(x, Plus(Plus(iv, INITVAL), n), x);
  }

  lemma Seeds(initval: Word)
    ensures Seed(12, initval).a == Plus(Plus(INITVAL, 12), initval)
    ensures Seed(8, initval).a == Plus(Plus(INITVAL, 8), initval)
    ensures Seed(4, initval).a == Plus(Plus(INITVAL, 4), initval)
  {
  }

  lemma SeedEqual(n: nat, initval: Word)
    ensures Seed(n, initval).a == Seed(n, initval).b == Seed(n, initval).c
  {
  }

  lemma WordsShort(t: Triple, a: Word, b: Word, c: Word)
    ensures WordsFrom(t, [a, b, c]) == Final(Add(t, a, b, c))
    ensures WordsFrom(t, [a, b]) == Final(Add(t, a, b, 0))
    ensures WordsFrom(t, [a]) == Final(Add(t, a, 0, 0))
  {
    hide Final, Mix, Plus;
  }

  /** The fixed forms are the word form on one, two and three words. */
  lemma FixedForms(a: Word, b: Word, c: Word, initval: Word)
    ensures Jhash3words(a, b, c, initval) == WordsFrom(Seed(12, initval), [a, b, c]).c
    ensures Jhash2words(a, b, initval) == WordsFrom(Seed(8, initval), [a, b]).c
    ensures Jhash1word(a, initval) == WordsFrom(Seed(4, initval), [a]).c
  {
    hide Final, Mix, Plus, Seed, WordsFrom;
    Seeds(initval);
    SeedEqual(12, initval);
    SeedEqual(8, initval);
    SeedEqual(4, initval);
    WordsShort(Seed(12, initval), a, b, c);
    WordsShort(Seed(8, initval), a, b, c);
    WordsShort(Seed(4, initval), a, b, c);
    Commute(a, 12, initval);
    Commute(b, 12, initval);
    Commute(c, 12, initval);
    Commute(a, 8, initval);
    Commute(b, 8, initval);
    Commute(0, 8, initval);
    Commute(a, 4, initval);
    Commute(0, 4, initval);
  }
}
