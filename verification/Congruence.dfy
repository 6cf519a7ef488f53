/** Congruence of integers, as far as the rolling hash needs it. */
module Congruence {

  predicate Cong(a: int, b: int, m: int)
    requires m > 0
  {
    (a - b) % m == 0
  }

  lemma MultipleIsZero(q: int, m: int)
    requires m > 0
    ensures (q * m) % m == 0
  {
    var x := q * m;
    var d := q - x / m;
    assert m * d == x % m by {
      assert x == m * (x / m) + x % m;
      assert m * d == m * q - m * (x / m);
    }
    assert d >= 1 ==> m * d >= m;
    assert d <= -1 ==> m * d <= -m;
  }

  lemma CongFrom(a: int, b: int, q: int, m: int)
    requires m > 0 && a - b == q * m
    ensures Cong(a, b, m)
  {
    MultipleIsZero(q, m);
  }

  lemma CongQuotient(a: int, b: int, m: int) returns (q: int)
    requires m > 0 && Cong(a, b, m)
    ensures a - b == q * m
  {
    q := (a - b) / m;
    assert a - b == m * ((a - b) / m) + (a - b) % m;
  }

  lemma CongAdd(a: int, b: int, c: int, d: int, m: int)
    requires m > 0 && Cong(a, b, m) && Cong(c, d, m)
    ensures Cong(a + c, b + d, m) && Cong(a - c, b - d, m)
  {
    var q := CongQuotient(a, b, m);
    var r := CongQuotient(c, d, m);
    assert (a + c) - (b + d) == (q + r) * m;
    CongFrom(a + c, b + d, q + r, m);
    assert (a - c) - (b - d) == (q - r) * m;
    CongFrom(a - c, b - d, q - r, m);
  }

  lemma CongScale(a: int, b: int, k: int, m: int)
    requires m > 0 && Cong(a, b, m)
    ensures Cong(k * a, k * b, m)
  {
    var q := CongQuotient(a, b, m);
    assert k * a - k * b == k * (a - b) == k * (q * m) == (k * q) * m;
    CongFrom(k * a, k * b, k * q, m);
  }

  lemma CongTrans(a: int, b: int, c: int, m: int)
    requires m > 0 && Cong(a, b, m) && Cong(b, c, m)
    ensures Cong(a, c, m)
  {
    CongAdd(a, b, b, c, m);
  }

  lemma CongSym(a: int, b: int, m: int)
    requires m > 0
    ensures Cong(a, b, m) <==> Cong(b, a, m)
  {
    if Cong(a, b, m) { var q := CongQuotient(a, b, m); assert b - a == (-q) * m; CongFrom(b, a, -q, m); }
    if Cong(b, a, m) { var q := CongQuotient(b, a, m); assert a - b == (-q) * m; CongFrom(a, b, -q, m); }
  }

  /** Wrapping to a multiple of the modulus stays in the same class. */
  lemma CongWrap(a: int, w: int, m: int, d: int)
    requires m > 0 && w == d * m && w > 0
    ensures Cong(a % w, a, m)
  {
    assert a == w * (a / w) + a % w;
    var k := -(a / w);
    assert a % w - a == w * k == (d * m) * k == (d * k) * m;
    CongFrom(a % w, a, d * k, m);
  }

  // ---- powers of two ----

  function Pow2(n: nat): nat
    ensures Pow2(n) > 0
  {
    if n == 0 then 1 else 2 * Pow2(n - 1)
  }

  lemma Pow2Of64()
    ensures Pow2(64) == 0x1_0000_0000_0000_0000
  {
    assert Pow2(2) == 4;
    Pow2Split(2, 2);
    Pow2Split(4, 4);
    Pow2Split(8, 8);
    Pow2Split(16, 16);
    hide Pow2;
    Pow2Split(32, 32);
  }

  lemma {:induction false} Pow2Split(a: nat, b: nat)
    ensures Pow2(a + b) == Pow2(b) * Pow2(a)
  {
    if b > 0 {
      Pow2Split(a, b - 1);
      TwiceProduct(Pow2(b - 1), Pow2(a));
    }
  }

  lemma TwiceProduct(x: int, y: int)
    ensures 2 * (x * y) == (2 * x) * y
  {
  }

  lemma OddProduct(p: int, x: int)
    ensures p % 2 == 1 && (p * x) % 2 == 0 ==> x % 2 == 0
  {
    var a, b := p / 2, x / 2;
    assert x % 2 == 1 && p % 2 == 1 ==> p * x == (2 * a + 1) * (2 * b + 1) == 2 * (2 * a * b + a + b) + 1;
  }

  /** An odd factor can be cancelled modulo a power of two. */
  lemma {:induction false} CancelOdd(p: int, x: int, n: nat)
    requires p % 2 == 1 && (p * x) % Pow2(n) == 0
    ensures x % Pow2(n) == 0
    decreases n
  {
    if n > 0 {
      var h := Pow2(n - 1);
      var q := CongQuotient(p * x, 0, 2 * h);
      var y := Half(p, x, q, h);
      MultipleIsZero(q, h);
      CancelOdd(p, y, n - 1);
      var r := CongQuotient(y, 0, h);
      assert x == 2 * (r * h) == r * (2 * h);
      MultipleIsZero(r, 2 * h);
    }
  }

  lemma Half(p: int, x: int, q: int, h: int) returns (y: int)
    requires p % 2 == 1 && p * x == q * (2 * h)
    ensures x == 2 * y && p * y == q * h
  {
    assert p * x == 2 * (q * h);
    OddProduct(p, x);
    y := x / 2;
    assert p * x == p * (2 * y) == 2 * (p * y);
  }

  lemma CongSelf(a: int, m: int)
    requires m > 0
    ensures Cong(a, a, m)
  {
  }

  lemma SameRemainder(a: int, b: int, m: int)
    requires m > 0 && Cong(a, b, m)
    ensures a % m == b % m
  {
    var q := CongQuotient(a, b, m);
    assert a == m * (a / m) + a % m && b == m * (b / m) + b % m;
    var d := q - a / m + b / m;
    assert m * d == a % m - b % m by {
      assert m * d == m * q - m * (a / m) + m * (b / m);
    }
    assert d >= 1 ==> m * d >= m;
    assert d <= -1 ==> m * d <= -m;
  }

  lemma SmallRemainder(a: nat, m: nat)
    requires a < m
    ensures a % m == a
  {
  }

  /** Wrapping early or late makes no difference to a product or a sum. */
  lemma WrapProduct(a: int, b: int, w: int)
    requires w > 0
    ensures ((a % w) * b) % w == (b * a) % w
  {
    CongWrap(a, w, w, 1);
    CongScale(a % w, a, b, w);
    assert b * (a % w) == (a % w) * b;
    SameRemainder((a % w) * b, b * a, w);
  }

  lemma WrapSum(a: int, t: int, r: int, w: int)
    requires w > 0
    ensures ((a + t) % w + r) % w == (a + (t + r) % w) % w
  {
    CongWrap(a + t, w, w, 1);
    CongWrap(t + r, w, w, 1);
    CongSelf(r, w);
    CongSelf(a, w);
    CongAdd((a + t) % w, a + t, r, r, w);
    CongAdd(a, a, (t + r) % w, t + r, w);
    CongSym(a + (t + r) % w, a + (t + r), w);
    CongTrans((a + t) % w + r, a + t + r, a + (t + r) % w, w);
    SameRemainder((a + t) % w + r, a + (t + r) % w, w);
  }

  lemma PlusWrapped(a: int, b: int, w: int)
    requires w > 0
    ensures (a % w + b) % w == (a + b) % w
  {
    CongWrap(a, w, w, 1);
    CongSelf(b, w);
    CongAdd(a % w, a, b, b, w);
    SameRemainder(a % w + b, a + b, w);
  }
}
