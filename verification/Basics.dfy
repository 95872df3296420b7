/** What several modules share: optional values, powers of two and division. */
module Basics {

  datatype Option<T> = None | Some(value: T)

  // ---------------------------------------------------------------- products

  lemma Spread(n: int, a: int, b: int)
    ensures n * (a + b) == n * a + n * b
  {
  }

  lemma Regroup(a: int, b: int, c: int)
    ensures (a * b) * c == a * (b * c)
  {
  }

  lemma AtLeast(n: nat, d: nat)
    requires d >= 1
    ensures n * d >= n
  {
    Spread(n, 1, d - 1);
  }

  lemma Gap(n: nat, a: nat, b: nat)
    requires a < b
    ensures n * b >= n * a + n
  {
    Spread(n, a, b - a);
    AtLeast(n, b - a);
  }

  // ---------------------------------------------------------------- division

  function Quotient(x: nat, d: nat): nat
    requires d > 0
  {
    x / d
  }

  lemma Divides(x: nat, n: nat)
    requires n > 0
    ensures x == n * (x / n) + x % n && x % n < n && x / n >= 0
  {
  }

  /** Quotient and remainder are unique. */
  lemma Division(x: nat, n: nat, q: nat, r: nat)
    requires n > 0 && x == n * q + r && r < n
    ensures x % n == r && x / n == q
  {
    Divides(x, n);
    var q' := x / n;
    if q < q' {
      Gap(n, q, q');
    } else if q' < q {
      Gap(n, q', q);
    }
  }

  lemma HalfRemainder(x: nat, p: nat)
    requires p > 0
    ensures x % (2 * p) == 2 * (x / 2 % p) + x % 2
    ensures x / (2 * p) == x / 2 / p
  {
    var h := x / 2;
    Divides(h, p);
    Regroup(2, p, h / p);
    Division(x, 2 * p, h / p, 2 * (h % p) + x % 2);
  }

  lemma HalfQuotient(x: nat, d: nat)
    requires d > 0
    ensures x / (2 * d) == (x / d) / 2
  {
    var q, r := x / d, x % d;
    Divides(x, d);
    Recombine(x, d, q, r, q / 2, q % 2);
  }

  lemma Recombine(x: nat, d: nat, q: nat, r: nat, h: nat, b: nat)
    requires d > 0 && x == d * q + r && r < d && q == 2 * h + b && b < 2
    ensures x / (2 * d) == h
  {
    Spread(d, 2 * h, b);
    Regroup(d, 2, h);
    Division(x, d * 2, h, if b == 0 then r else d + r);
  }

  // ---------------------------------------------------------------- powers of two

  function Pow2(n: nat): (p: nat)
    ensures p > 0
  {
    if n == 0 then 1 else 2 * Pow2(n - 1)
  }

  lemma UnfoldPow2(n: nat)
    ensures Pow2(0) == 1 && (n > 0 ==> Pow2(n) == 2 * Pow2(n - 1))
  {
  }

  lemma {:induction false} Pow2Adds(a: nat, b: nat)
    ensures Pow2(a + b) == Pow2(a) * Pow2(b)
  {
    hide Pow2;
    UnfoldPow2(a);
    UnfoldPow2(a + b);
    if a > 0 {
      Pow2Adds(a - 1, b);
      Regroup(2, Pow2(a - 1), Pow2(b));
    }
  }

  lemma Pow2Values()
    ensures Pow2(2) == 4 && Pow2(3) == 8 && Pow2(8) == 0x100 && Pow2(16) == 0x1_0000
    ensures Pow2(32) == 0x1_0000_0000 && Pow2(64) == 0x1_0000_0000_0000_0000
  {
    hide Pow2;
    UnfoldPow2(1);
    UnfoldPow2(2);
    UnfoldPow2(3);
    Pow2Adds(2, 2);
    Pow2Adds(4, 4);
    Pow2Adds(8, 8);
    Pow2Adds(16, 16);
    Pow2Adds(32, 32);
  }
}
