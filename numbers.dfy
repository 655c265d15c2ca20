/** Integer helpers shared by the date walk, the page count and the viewport slices. */
module Numbers {

  function Max(a: int, b: int): (m: int)
    ensures m >= a && m >= b && (m == a || m == b)
  {
    if a >= b then a else b
  }

  /** math.ceil(a / b) for integers and a positive b: the least q with q * b >= a. */
  function CeilDiv(a: int, b: int): (q: int)
    requires b > 0
    ensures q * b >= a && (q - 1) * b < a
    ensures a >= 0 ==> q >= 0
  {
    CeilDivBounds(a, b);
    (a + b - 1) / b
  }

  lemma CeilDivBounds(a: int, b: int)
    requires b > 0
    ensures var q := (a + b - 1) / b;
      q * b >= a && (q - 1) * b < a && (a >= 0 ==> q >= 0)
  {
    var q := (a + b - 1) / b;
    var r := (a + b - 1) % b;
    assert a + b - 1 == q * b + r && 0 <= r < b;
    assert (q - 1) * b == q * b - b;
    if a >= 0 && q < 0 {
      MulNegative(q, b);
    }
  }

  lemma MulNegative(q: int, b: int)
    requires q < 0 && b > 0
    ensures q * b <= -b
  {
    assert q * b == -((-q) * b);
    assert (-q) * b >= b by { assert (-q) * b == b + (-q - 1) * b; }
  }

  /** The count of offsets 0, b, 2b, ... below a is ceil(a / b), and no other count covers them. */
  lemma CeilDivUnique(a: int, b: int, n: int)
    requires b > 0
    requires n * b >= a && (n - 1) * b < a
    ensures n == CeilDiv(a, b)
  {
    var q := CeilDiv(a, b);
    if n < q {
      MulMono(n, q - 1, b);
    } else if n > q {
      MulMono(q, n - 1, b);
    }
  }

  lemma MulMono(x: int, y: int, b: int)
    requires x <= y && b > 0
    ensures x * b <= y * b
  {
    assert y * b == x * b + (y - x) * b;
    assert (y - x) * b >= 0;
  }
}
