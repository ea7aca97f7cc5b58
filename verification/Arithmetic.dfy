/** Facts about products, quotients and powers that several components rely on. */
module Arithmetic {

  function Pow2(n: nat): (r: nat)
    ensures r >= 1
  {
    if n == 0 then 1 else 2 * Pow2(n - 1)
  }

  function Pow10(n: nat): (r: nat)
    ensures r >= 1
  {
    if n == 0 then 1 else 10 * Pow10(n - 1)
  }

  lemma {:induction false} Pow2Sum(a: nat, b: nat)
    ensures Pow2(a + b) == Pow2(a) * Pow2(b)
  {
    if a > 0 {
      Pow2Sum(a - 1, b);
      Associate(2, Pow2(a - 1), Pow2(b));
    }
  }

  lemma {:induction false} Pow10Sum(a: nat, b: nat)
    ensures Pow10(a + b) == Pow10(a) * Pow10(b)
  {
    if a > 0 {
      Pow10Sum(a - 1, b);
      Associate(10, Pow10(a - 1), Pow10(b));
    }
  }

  lemma Associate(a: int, b: int, c: int)
    ensures a * b * c == a * (b * c)
  {
  }

  lemma Distribute(a: int, b: int, c: int)
    ensures (a + b) * c == a * c + b * c
  {
  }

  lemma Pow2Small()
    ensures Pow2(3) == 8 && Pow2(4) == 16
  {
    assert Pow2(4) == 2 * Pow2(3) && Pow2(3) == 2 * Pow2(2);
  }

  /** The small ones, and two to the 64. */
  lemma Pow2Values()
    ensures Pow2(8) == 256 && Pow2(11) == 2048 && Pow2(64) == 0x1_0000_0000_0000_0000
  {
    Pow2Small();
    hide Pow2;
    Pow2Sum(4, 4);
    Pow2Sum(8, 3);
    Pow2Sum(8, 8);
    Pow2Sum(16, 16);
    Pow2Sum(32, 32);
  }

  lemma Pow10Values()
    ensures Pow10(1) == 10 && Pow10(2) == 100 && Pow10(3) == 1000 && Pow10(4) == 1_0000
    ensures Pow10(5) == 10_0000 && Pow10(6) == 100_0000 && Pow10(7) == 1000_0000 && Pow10(8) == 1_0000_0000
  {
    assert Pow10(2) == 10 * Pow10(1);
    assert Pow10(4) == 10 * Pow10(3) && Pow10(3) == 10 * Pow10(2);
    Pow10Sum(4, 1);
    Pow10Sum(4, 2);
    Pow10Sum(4, 3);
    Pow10Sum(4, 4);
  }

  /** The power of two in a product `w * d` comes from `w`, up to the `a` factors `d` may hold. */
  lemma {:induction false} PowerComesFrom(w: int, d: int, n: nat, a: nat, q: int) returns (r: int)
    requires w * d == Pow2(n + a) * q && d % Pow2(a) != 0
    ensures w == Pow2(n) * r
    decreases n + a, a
  {
    if a == 0 {
      assert false;
    } else if d % 2 == 0 {
      var half := d / 2;
      assert d == 2 * half;
      HalfNotMultiple(half, Pow2(a - 1));
      Halve(w, half, Pow2(n + a - 1), q);
      r := PowerComesFrom(w, half, n, a - 1, q);
    } else {
      var s := OddTakesNothing(w, d, n + a, q);
      Pow2Sum(n, a);
      Associate(Pow2(n), Pow2(a), s);
      r := Pow2(a) * s;
    }
  }

  lemma Halve(w: int, half: int, p: int, q: int)
    requires w * (2 * half) == 2 * p * q
    ensures w * half == p * q
  {
    assert w * (2 * half) == 2 * (w * half);
    Associate(2, p, q);
  }

  lemma HalfNotMultiple(half: int, p: nat)
    requires p >= 1 && (2 * half) % (2 * p) != 0
    ensures half % p != 0
  {
    if half % p == 0 {
      var t := half / p;
      assert half == p * t;
      Associate(2, p, t);
      assert 2 * half == (2 * p) * t;
      MultipleHasNoRest(2 * p, t);
    }
  }

  lemma MultipleHasNoRest(p: nat, t: int)
    requires p >= 1
    ensures (p * t) % p == 0
  {
    Quotient(p * t, p, t, 0);
  }

  /** Quotient and remainder are the only ones. */
  lemma Quotient(n: int, unit: nat, q: int, r: nat)
    requires n == unit * q + r && r < unit
    ensures n / unit == q && n % unit == r
  {
    var d := n / unit - q;
    assert unit * d == r - n % unit by {
      assert unit * (n / unit) + n % unit == n;
      assert unit * d == unit * (n / unit) - unit * q;
    }
    MultipleOutgrows(unit, d);
  }

  lemma MultipleOutgrows(unit: nat, d: int)
    ensures d >= 1 ==> unit * d >= unit
    ensures d <= -1 ==> unit * d <= -1 * unit
  {
  }

  /** An odd factor contributes no power of two. */
  lemma {:induction false} OddTakesNothing(w: int, m: int, n: nat, q: int) returns (r: int)
    requires w * m == Pow2(n) * q && m % 2 == 1
    ensures w == Pow2(n) * r
    decreases n
  {
    if n == 0 {
      r := w;
    } else {
      Associate(2, Pow2(n - 1), q);
      EvenFromProduct(w, m, Pow2(n - 1) * q);
      var half := w / 2;
      assert w == 2 * half;
      Associate(2, half, m);
      r := OddTakesNothing(half, m, n - 1, q);
      Associate(2, Pow2(n - 1), r);
    }
  }

  lemma EvenFromProduct(w: int, m: int, k: int)
    requires w * m == 2 * k && m % 2 == 1
    ensures w % 2 == 0
  {
    var a, b, r := w / 2, m / 2, w % 2;
    assert w == 2 * a + r && m == 2 * b + 1;
    assert w * m == 2 * (2 * a * b + a + b * r) + r;
  }
}
