/** Division facts used by the modules that cut files into parts. */
module Arithmetic {

  /** Quotient and remainder are unique. */
  lemma DivUnique(a: int, b: int, q: int, r: int)
    requires 0 <= r < b && a == q * b + r
    ensures a / b == q && a % b == r
  {
    var q', r' := a / b, a % b;
    assert a == q' * b + r';
    assert (q' - q) * b == q' * b - q * b == r - r';
    assert (q - q') * b == q * b - q' * b == r' - r;
    if q' > q {
      MulAtLeast(q' - q, b);
    } else if q' < q {
      MulAtLeast(q - q', b);
    }
  }

  lemma MulAtLeast(k: int, b: int)
    requires k >= 1 && b >= 0
    ensures k * b >= b
  {
    assert (k - 1) * b >= 0;
    assert k * b == (k - 1) * b + b;
  }

  lemma MulMonotone(i: int, j: int, b: int)
    requires i <= j && b >= 0
    ensures i * b <= j * b
  {
    assert (j - i) * b >= 0;
    assert (j - i) * b == j * b - i * b;
  }

  lemma MulInjective(k: int, a: int, b: int)
    requires k > 0 && a != b
    ensures k * a != k * b
  {
    MulAtLeast(if a > b then a - b else b - a, k);
    assert k * (a - b) == k * a - k * b;
  }

  /** Rounding up, as the program writes it. */
  function CeilDiv(a: nat, b: nat): nat
    requires b > 0
  {
    (a + b - 1) / b
  }

  /** The parts of size `b` cover `a`, and one part fewer does not. */
  lemma CeilDivCovers(a: nat, b: nat)
    requires b > 0 && a > 0
    ensures var n := CeilDiv(a, b);
            && n >= 1
            && (n - 1) * b < a <= n * b
            && n == (a - 1) / b + 1
            && a - (n - 1) * b == (if a % b == 0 then b else a % b)
  {
    var q, r := (a - 1) / b, (a - 1) % b;
    assert a - 1 == q * b + r;
    assert (q + 1) * b == q * b + b;
    DivUnique(a + b - 1, b, q + 1, r);
    if r == b - 1 {
      DivUnique(a, b, q + 1, 0);
    } else {
      DivUnique(a, b, q, r + 1);
    }
  }

  /** A bound on the number of parts is a bound on the size they cover. */
  lemma CeilDivAtMost(a: nat, b: nat, n: nat)
    requires b > 0
    ensures CeilDiv(a, b) <= n <==> a <= n * b
  {
    if a == 0 {
      DivUnique(b - 1, b, 0, b - 1);
    } else {
      CeilDivCovers(a, b);
      var c := CeilDiv(a, b);
      if c <= n {
        MulMonotone(c, n, b);
      } else {
        MulMonotone(n, c - 1, b);
      }
    }
  }
}
