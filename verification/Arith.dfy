/** Division facts the other modules share; the solver needs them spelled out. */
module Arith {

  lemma MulMono(x: int, y: int, c: nat)
    requires x <= y
    ensures x * c <= y * c
  {
  }

  lemma MulAssoc(a: int, b: int, c: int)
    ensures a * (b * c) == (a * b) * c
  {
  }

  lemma Distribute(x: int, y: int, c: int)
    ensures (x - y) * c == x * c - y * c
    ensures (x + y) * c == x * c + y * c
  {
  }

  /** Quotient and remainder are determined by `n == q * c + r`. */
  lemma DivModUnique(n: int, q: int, r: int, c: nat)
    requires c > 0 && n == q * c + r && 0 <= r < c
    ensures n / c == q && n % c == r
  {
    var q', r' := n / c, n % c;
    assert n == q' * c + r';
    if q < q' {
      MulMono(q + 1, q', c);
      Distribute(q, 1, c);
    } else if q' < q {
      MulMono(q' + 1, q, c);
      Distribute(q', 1, c);
    }
  }

  /** Adding multiples of the modulus does not change a remainder. */
  lemma ModShift(r: int, q: int, c: nat)
    requires c > 0
    ensures (q * c + r) % c == r % c
    ensures (q * c + r) / c == q + r / c
  {
    Distribute(q, r / c, c);
    DivModUnique(q * c + r, q + r / c, r % c, c);
  }

  lemma ModAdd(a: int, b: int, c: nat)
    requires c > 0
    ensures (a % c + b) % c == (a + b) % c
  {
    ModShift(a % c + b, a / c, c);
    assert a + b == (a / c) * c + (a % c + b);
  }

  /** Two numbers less than `c` apart have different remainders. */
  lemma ModDistinct(a: int, b: int, c: nat)
    requires c > 0 && a < b < a + c
    ensures a % c != b % c
  {
    if a % c == b % c {
      var d := b / c - a / c;
      Distribute(b / c, a / c, c);
      assert b - a == d * c;
      if d >= 1 { MulMono(1, d, c); } else { MulMono(d, 0, c); }
    }
  }
}
