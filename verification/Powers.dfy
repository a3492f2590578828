/** Powers of two. */
module Powers {

  function Pow2(n: nat): (r: nat)
    ensures r > 0
  {
    if n == 0 then 1 else 2 * Pow2(n - 1)
  }

  lemma {:induction false} Pow2Sum(a: nat, b: nat)
    ensures Pow2(a + b) == Pow2(a) * Pow2(b)
  {
    if a > 0 {
      Pow2Sum(a - 1, b);
    }
  }

  lemma {:induction false} Pow2Monotone(a: nat, b: nat)
    requires a <= b
    ensures Pow2(a) <= Pow2(b)
  {
    if a < b {
      Pow2Monotone(a, b - 1);
    }
  }

  lemma {:induction false} MoreTimes(c: nat, p: nat, q: nat)
    requires p < q
    ensures c * q >= c * p + c
    decreases q
  {
    assert c * q == c * (q - 1) + c;
    if p + 1 < q {
      MoreTimes(c, p, q - 1);
    }
  }

  lemma {:induction false} SameRemainder(c: nat, p: nat, m: nat, q: nat, r: nat)
    requires c * p + m == c * q + r && m < c && r < c
    ensures p == q && m == r
  {
    if p < q {
      MoreTimes(c, p, q);
      assert false;
    } else if q < p {
      MoreTimes(c, q, p);
      assert false;
    }
  }

  lemma QuotientAndRemainder(j: nat, c: nat)
    requires c > 0
    ensures j == c * (j / c) + j % c && 0 <= j % c < c
  {
  }

  /** What is left of `j` after `q` times `c`. */
  lemma {:induction false} Remainder(j: nat, c: nat, q: nat, r: nat)
    requires j == c * q + r && r < c
    ensures j % c == r
  {
    QuotientAndRemainder(j, c);
    SameRemainder(c, j / c, j % c, q, r);
  }
}
