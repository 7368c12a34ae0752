/** Division with remainder, where the solver needs a hand. */
module Division {
  lemma MulAtLeast(n: int, d: nat)
    requires n >= 1
    ensures n * d >= d
  {
  }

  lemma DivModUnique(t: int, d: nat, q: int, r: nat)
    requires d > 0 && t == q * d + r && r < d
    ensures t / d == q && t % d == r
  {
    var q' := t / d;
    assert t == q' * d + t % d;
    assert (q - q') * d == t % d - r && (q' - q) * d == r - t % d;
    if q > q' {
      MulAtLeast(q - q', d);
    } else if q < q' {
      MulAtLeast(q' - q, d);
    }
  }

  /** Dividing by a and then by b is dividing by their product. */
  lemma DivideTwice(x: nat, a: nat, b: nat)
    requires a > 0 && b > 0
    ensures a * b > 0 && (x / a) / b == x / (a * b)
  {
    var q, r := x / a, x % a;
    var q', r' := q / b, q % b;
    MulAtLeast(a, b);
    RemainderFits(a, b, r, r');
    Regroup(a, b, q', r', r);
    assert x == q * a + r && q == q' * b + r';
    DivModUnique(x, a * b, q', a * r' + r);
  }

  lemma RemainderFits(a: nat, b: nat, r: nat, r': nat)
    requires r < a && r' < b
    ensures a * r' + r < a * b
  {
    MulAtLeast(b - r', a);
    assert (b - r') * a == a * b - a * r';
  }

  lemma Regroup(a: int, b: int, q': int, r': int, r: int)
    ensures (q' * b + r') * a + r == q' * (a * b) + (a * r' + r)
  {
    assert (q' * b) * a == q' * (a * b);
  }
}
