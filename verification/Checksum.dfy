/** The Internet checksum: in full (src/common/util.c:81-110, RFC 1071) and updated for one changed word
    (util/af_xdp/af_xdp_user.c:117-133, equation 3 in section 3 of RFC 1624). */
module Checksum {

  type Byte = x: nat | x < 256

  const MASK: nat := 0xffff
  const WRAP: nat := 0x1_0000_0000
  const MAX_BYTES: nat := 131074

  predicate Words(ws: seq<nat>) { forall i :: 0 <= i < |ws| ==> ws[i] <= MASK }

  /** The 16-bit words of a buffer, low byte first; a left-over byte is a word of its own. */
  function WordsOf(b: seq<Byte>): (ws: seq<nat>)
    ensures Words(ws) && |ws| == (|b| + 1) / 2
  {
    if b == [] then []
    else if |b| == 1 then [b[0] as nat]
    else [b[0] as nat + 256 * b[1] as nat] + WordsOf(b[2..])
  }

  predicate AllZero(ws: seq<nat>) { forall j :: 0 <= j < |ws| ==> ws[j] == 0 }

  function Total(ws: seq<nat>): nat {
    if ws == [] then 0 else Total(ws[..|ws| - 1]) + ws[|ws| - 1]
  }

  /** The one's complement sum of RFC 1071: the representative of the total modulo 65535 that is zero
      only when every word is. */
  function Ones(total: nat): (r: nat)
    ensures r <= MASK
  {
    if total == 0 then 0 else (total - 1) % MASK + 1
  }

  function Ideal(ws: seq<nat>): (r: nat)
    ensures r <= MASK
  {
    MASK - Ones(Total(ws))
  }

  // ---------------------------------------------------------------- folding

  /** One round of the fold loop. */
  function Fold(sum: nat): nat { sum % 0x1_0000 + sum / 0x1_0000 }

  lemma FoldKeeps(sum: nat)
    ensures Ones(Fold(sum)) == Ones(sum)
    ensures sum > MASK ==> Fold(sum) < sum
  {
    var hi, lo := sum / 0x1_0000, sum % 0x1_0000;
    assert sum == Fold(sum) + MASK * hi;
    if Fold(sum) == 0 {
      assert sum == 0;
    } else {
      Residue(Fold(sum) - 1, hi);
    }
  }

  lemma Residue(x: nat, k: nat)
    ensures (x + MASK * k) % MASK == x % MASK
  {
  }

  /** A 32-bit sum is folded in at most two rounds. */
  lemma TwoRounds(sum: nat)
    requires sum < WRAP
    ensures Fold(Fold(sum)) <= MASK
  {
  }

  lemma OnesSmall(sum: nat)
    requires sum <= MASK
    ensures Ones(sum) == sum
  {
  }

  // ---------------------------------------------------------------- the full checksum

  lemma {:induction false} TotalAppend(a: seq<nat>, b: seq<nat>)
    ensures Total(a + b) == Total(a) + Total(b)
    decreases |b|
  {
    if b == [] {
      assert a + b == a;
    } else {
      assert (a + b)[..|a + b| - 1] == a + b[..|b| - 1];
      TotalAppend(a, b[..|b| - 1]);
    }
  }

  lemma TotalFirst(w: nat, ws: seq<nat>)
    ensures Total([w] + ws) == w + Total(ws)
  {
    TotalAppend([w], ws);
    assert [w][..0] == [];
    assert Total([w]) == w;
  }

  lemma {:induction false} TotalBound(ws: seq<nat>)
    requires Words(ws)
    ensures Total(ws) <= MASK * |ws|
  {
    if ws != [] {
      TotalBound(ws[..|ws| - 1]);
    }
  }

  /** What the code returns, for every length: the sum is kept in 32 bits. */
  function Computed(ws: seq<nat>): (r: nat)
    ensures r <= MASK
  {
    MASK - Ones(Total(ws) % WRAP)
  }

  method Checksum(addr: seq<Byte>, len: int) returns (answer: nat)
    requires len <= |addr|
    ensures answer == Computed(WordsOf(if len > 0 then addr[..len] else []))
  {
    var sum := SumWords(if len > 0 then addr[..len] else [], len);
    sum := FoldAll(sum);
    answer := MASK - sum;
  }

  /** The summing loop and the left-over byte. */
  method SumWords(data: seq<Byte>, len: int) returns (sum: nat)
    requires if len > 0 then |data| == len else data == []
    ensures sum == Total(WordsOf(data)) % WRAP
  {
    hide WordsOf, Total;
    var count: int, at: nat := len, 0;
    sum := 0;
    assert data[0..] == data;
    while count > 1
      invariant at <= |data| && (if len > 0 then count == |data| - at else count <= 0 && at == 0)
      invariant sum < WRAP && (sum + Total(WordsOf(data[at..]))) % WRAP == Total(WordsOf(data)) % WRAP
      decreases count
    {
      var w: nat := data[at] as nat + 256 * data[at + 1] as nat;
      WordAt(data, at);
      WrapSum(sum, w, Total(WordsOf(data[at + 2..])));
      sum := (sum + w) % WRAP;
      at := at + 2;
      count := count - 2;
    }
    LastWord(data, at);
    if count > 0 {
      sum := (sum + data[at] as nat) % WRAP;
    }
  }

  /** The fold loop: at most two rounds for a 32-bit sum. */
  method FoldAll(total: nat) returns (sum: nat)
    requires total < WRAP
    ensures sum == Ones(total)
  {
    sum := total;
    ghost var rounds := 0;
    while sum > MASK
      invariant rounds <= 2
      invariant sum == (if rounds == 0 then total else if rounds == 1 then Fold(total) else Fold(Fold(total)))
      invariant Ones(sum) == Ones(total)
      decreases sum
    {
      TwoRounds(total);
      FoldKeeps(sum);
      sum := Fold(sum);
      rounds := rounds + 1;
    }
    OnesSmall(sum);
  }

  lemma WordAt(b: seq<Byte>, at: nat)
    requires at + 1 < |b|
    ensures Total(WordsOf(b[at..])) == b[at] as nat + 256 * b[at + 1] as nat + Total(WordsOf(b[at + 2..]))
  {
    var t := b[at..];
    assert t[2..] == b[at + 2..] && t[0] == b[at] && t[1] == b[at + 1];
    TotalFirst(t[0] as nat + 256 * t[1] as nat, WordsOf(t[2..]));
  }

  lemma LastWord(b: seq<Byte>, at: nat)
    requires at <= |b| <= at + 1
    ensures Total(WordsOf(b[at..])) == if at == |b| then 0 else b[at] as nat
  {
    if at < |b| {
      assert b[at..] == [b[at]];
      var ws := [b[at] as nat];
      assert ws[..0] == [];
    }
  }

  lemma WrapSum(sum: nat, w: nat, rest: nat)
    ensures ((sum + w) % WRAP + rest) % WRAP == (sum + (w + rest)) % WRAP
  {
  }

  /** Up to 131074 bytes nothing overflows, and the result is the one of RFC 1071. */
  lemma ExactUpTo(b: seq<Byte>)
    requires |b| <= MAX_BYTES
    ensures Total(WordsOf(b)) < WRAP && Computed(WordsOf(b)) == Ideal(WordsOf(b))
  {
    hide WordsOf, Total;
    TotalBound(WordsOf(b));
    Below(|WordsOf(b)|);
  }

  lemma Below(n: nat)
    requires n <= 65537
    ensures MASK * n < WRAP
  {
  }

  /** Beyond that, for every length an int can hold, the result is right exactly when the total fits. */
  lemma ExactIff(ws: seq<nat>)
    requires Words(ws) && |ws| <= 0x4000_0000
    ensures Computed(ws) == Ideal(ws) <==> Total(ws) < WRAP
  {
    TotalBound(ws);
    CarryLost(Total(ws));
  }

  lemma CarryLost(t: nat)
    requires t <= MASK * 0x4000_0000
    ensures Ones(t % WRAP) == Ones(t) <==> t < WRAP
  {
    if t >= WRAP {
      var q, r := t / WRAP, t % WRAP;
      assert 0 < q < 0x4000;
      assert WRAP == MASK * 0x1_0001 + 1;
      assert t - 1 == r + q - 1 + MASK * (0x1_0001 * q);
      Residue(r + q - 1, 0x1_0001 * q);
      assert Ones(t) == (r + q - 1) % MASK + 1;
      if r > 0 {
        NotShifted(r - 1, q);
      }
    }
  }

  lemma NotShifted(x: nat, q: nat)
    requires 0 < q < MASK
    ensures x % MASK != (x + q) % MASK
  {
  }

  function Ones16(n: nat): (ws: seq<nat>)
    ensures Words(ws) && |ws| == n
  {
    seq(n, _ => MASK)
  }

  lemma {:induction false} TotalOfOnes(n: nat)
    ensures Total(Ones16(n)) == MASK * n
  {
    if n > 0 {
      assert Ones16(n)[..n - 1] == Ones16(n - 1);
      TotalOfOnes(n - 1);
    }
  }

  /** 131076 bytes of ones are the first to overflow: the carry out of 32 bits is lost. */
  lemma LongBufferFails()
    ensures Total(Ones16(65538)) >= WRAP && Computed(Ones16(65538)) != Ideal(Ones16(65538))
    ensures Total(Ones16(65537)) < WRAP && Computed(Ones16(65537)) == Ideal(Ones16(65537))
  {
    hide Total, Ones16, Computed, Ideal;
    TotalOfOnes(65538);
    TotalOfOnes(65537);
    ExactIff(Ones16(65538));
    ExactIff(Ones16(65537));
  }

  // ---------------------------------------------------------------- storing it

  lemma {:induction false} TotalSet(ws: seq<nat>, i: nat, w: nat)
    requires i < |ws|
    ensures Total(ws[i := w]) == Total(ws) - ws[i] + w
    decreases |ws|
  {
    var n := |ws| - 1;
    if i < n {
      TotalSet(ws[..n], i, w);
      assert ws[i := w][..n] == ws[..n][i := w];
    } else {
      assert ws[i := w][..n] == ws[..n];
    }
  }

  function Store(b: seq<Byte>, i: nat, w: nat): (r: seq<Byte>)
    requires 2 * i + 1 < |b| && w <= MASK
    ensures |r| == |b|
  {
    b[2 * i := w % 256][2 * i + 1 := w / 256]
  }

  /** Storing a word at an even offset replaces that word. */
  lemma {:induction false} StoreWord(b: seq<Byte>, i: nat, w: nat)
    requires 2 * i + 1 < |b| && w <= MASK
    ensures WordsOf(Store(b, i, w)) == WordsOf(b)[i := w]
    decreases i
  {
    var r := Store(b, i, w);
    if i == 0 {
      assert r[2..] == b[2..];
    } else {
      assert r[2..] == Store(b[2..], i - 1, w);
      StoreWord(b[2..], i - 1, w);
      assert WordsOf(b)[i := w] == [WordsOf(b)[0]] + WordsOf(b[2..])[i - 1 := w];
    }
  }

  /** A buffer that carries its checksum, computed while the field was zero, checks to zero. */
  lemma StoredChecksumVerifies(b: seq<Byte>, i: nat)
    requires |b| <= MAX_BYTES && 2 * i + 1 < |b| && WordsOf(b)[i] == 0
    ensures Computed(WordsOf(Store(b, i, Computed(WordsOf(b))))) == 0
  {
    hide WordsOf, Total, Store;
    var c := Computed(WordsOf(b));
    var t := Total(WordsOf(b));
    ExactUpTo(b);
    StoreWord(b, i, c);
    TotalSet(WordsOf(b), i, c);
    ExactUpTo(Store(b, i, c));
    Completes(t);
  }

  lemma Completes(t: nat)
    ensures Ones(t + (MASK - Ones(t))) == MASK
  {
    if t > 0 {
      var q := (t - 1) / MASK;
      assert t - 1 == MASK * q + (t - 1) % MASK;
      assert t + (MASK - Ones(t)) - 1 == MASK - 1 + MASK * q;
      Residue(MASK - 1, q);
    }
  }

  // ---------------------------------------------------------------- updating it

  /** csum16_add: add, and add the carry back in. */
  function Add16(csum: nat, addend: nat): (r: nat)
    requires csum <= MASK && addend <= MASK
    ensures r <= MASK
  {
    var res := (csum + addend) % 0x1_0000;
    (res + if res < addend then 1 else 0) % 0x1_0000
  }

  function Sub16(csum: nat, addend: nat): (r: nat)
    requires csum <= MASK && addend <= MASK
    ensures r <= MASK
  {
    Add16(csum, MASK - addend)
  }

  function Replace2(sum: nat, was: nat, now: nat): (r: nat)
    requires sum <= MASK && was <= MASK && now <= MASK
    ensures r <= MASK
  {
    MASK - Add16(Sub16(MASK - sum, was), now)
  }

  method CsumReplace2(cell: array<nat>, at: nat, was: nat, now: nat)
    requires at < cell.Length && cell[at] <= MASK && was <= MASK && now <= MASK
    modifies cell
    ensures cell[..] == old(cell[..])[at := Replace2(old(cell[at]), was, now)]
  {
    cell[at] := MASK - Add16(Sub16(MASK - cell[at], was), now);
  }

  /** Adding with end-around carry adds modulo 65535, and gives zero only for zeros. */
  lemma AddIsOnes(a: nat, b: nat)
    requires a <= MASK && b <= MASK
    ensures Add16(a, b) == Ones(a + b)
  {
    if a + b > MASK {
      assert (a + b) % 0x1_0000 == a + b - 0x1_0000;
      assert (a + b - 1) % MASK == a + b - 1 - MASK;
    }
  }

  lemma OnesOfSum(t: nat, b: nat)
    ensures Ones(Ones(t) + b) == Ones(t + b)
  {
    if t > 0 {
      var q := (t - 1) / MASK;
      assert t == Ones(t) + MASK * q;
      Residue(Ones(t) + b - 1, q);
    }
  }

  lemma OnesShift(t: nat)
    requires t > 0
    ensures Ones(t + MASK) == Ones(t)
  {
    Residue(t - 1, 1);
  }

  /** Updating the checksum for one changed word gives the checksum of the changed data, except exactly
      when the changed data is all zeros. */
  lemma UpdateIff(ws: seq<nat>, i: nat, now: nat)
    requires Words(ws) && i < |ws| && now <= MASK
    ensures Replace2(Ideal(ws), ws[i], now) == Ideal(ws[i := now]) <==> !AllZero(ws[i := now])
  {
    var was, t := ws[i], Total(ws);
    var t' := t - was + now;
    TotalSet(ws, i, now);
    TotalAtLeast(ws, i);
    var step := MASK - was;
    AddIsOnes(Ones(t), step);
    OnesOfSum(t, step);
    AddIsOnes(Ones(t + step), now);
    OnesOfSum(t + step, now);
    assert t + step + now == t' + MASK;
    assert Replace2(Ideal(ws), was, now) == MASK - Ones(t' + MASK);
    TotalZero(ws[i := now]);
    if t' > 0 {
      OnesShift(t');
    }
  }

  /** The one word of the data changes from one to zero: the update gives 0, recomputing gives 0xffff. */
  lemma UpdateToZeroFails()
    ensures Replace2(Ideal([1]), 1, 0) == 0 && Ideal([1][0 := 0]) == MASK
  {
    assert [1][..0] == [] && [0][..0] == [] && [1][0 := 0] == [0];
    assert Total([1]) == 1 && Total([0]) == 0;
  }

  lemma {:induction false} TotalAtLeast(ws: seq<nat>, i: nat)
    requires i < |ws|
    ensures Total(ws) >= ws[i]
    decreases |ws|
  {
    if i < |ws| - 1 {
      TotalAtLeast(ws[..|ws| - 1], i);
    }
  }

  lemma {:induction false} TotalZero(ws: seq<nat>)
    ensures Total(ws) == 0 <==> AllZero(ws)
  {
    if ws != [] {
      var n := |ws| - 1;
      TotalZero(ws[..n]);
      assert AllZero(ws) <==> AllZero(ws[..n]) && ws[n] == 0;
    }
  }

  /** On buffers: updating the field computed by the code gives what the code would compute. */
  lemma UpdateIsRecompute(b: seq<Byte>, i: nat, now: nat)
    requires |b| <= MAX_BYTES && 2 * i + 1 < |b| && now <= MASK
    ensures Replace2(Computed(WordsOf(b)), WordsOf(b)[i], now) == Computed(WordsOf(Store(b, i, now)))
            <==> !AllZero(WordsOf(b)[i := now])
  {
    hide WordsOf, Total, Store;
    ExactUpTo(b);
    StoreWord(b, i, now);
    ExactUpTo(Store(b, i, now));
    UpdateIff(WordsOf(b), i, now);
  }
}
