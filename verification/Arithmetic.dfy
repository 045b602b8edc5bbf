/** Products, quotients and residues, kept out of the solver's way by counting copies. */
module Arithmetic {

  lemma MulMonotone(a: nat, b: nat, d: nat)
    requires a <= b
    ensures a * d <= b * d
  {
    assert (b - a) * d >= 0;
  }

  lemma MulStrict(a: nat, b: nat, d: nat)
    requires a < b
    ensures a * d + d <= b * d
  {
    MulMonotone(a + 1, b, d);
  }

  lemma DivModOf(q: nat, d: nat, r: nat)
    requires r < d
    ensures (q * d + r) / d == q && (q * d + r) % d == r
  {
    var x := q * d + r;
    var k := x / d;
    assert x == k * d + x % d;
    if k > q {
      MulStrict(q, k, d);
    } else if k < q {
      MulStrict(k, q, d);
    }
  }

  /** `n` copies of `d`. */
  function Times(n: nat, d: nat): nat {
    if n == 0 then 0 else Times(n - 1, d) + d
  }

  lemma {:induction false} TimesIs(n: nat, d: nat)
    ensures Times(n, d) == n * d
  {
    if n > 0 {
      TimesIs(n - 1, d);
      assert n * d == (n - 1) * d + d;
    }
  }

  lemma {:induction false} TimesAdds(m: nat, n: nat, d: nat)
    ensures Times(m + n, d) == Times(m, d) + Times(n, d)
  {
    if n > 0 {
      TimesAdds(m, n - 1, d);
    }
  }

  /** `m` copies reach `n` copies exactly if `m` reaches `n`. */
  lemma TimesOrdered(m: nat, n: nat, d: nat)
    requires d > 0
    ensures Times(m, d) >= Times(n, d) <==> m >= n
    ensures m > n ==> Times(m, d) >= Times(n, d) + d
  {
    if m >= n {
      TimesAdds(n, m - n, d);
    } else {
      TimesAdds(m, n - m, d);
    }
  }

  lemma {:induction false} TimesTwice(lap: nat, periods: nat, period: nat)
    ensures Times(lap, Times(periods, period)) == Times(lap * periods, period)
  {
    if lap > 0 {
      TimesTwice(lap - 1, periods, period);
      TimesAdds((lap - 1) * periods, periods, period);
      assert lap * periods == (lap - 1) * periods + periods;
    } else {
      assert lap * periods == 0;
    }
  }

  /** Adding at most one full turn to a residue. */
  lemma ModStep(x: nat, n: nat, d: nat)
    requires n > 0 && d <= n
    ensures (x + d) % n == if x % n + d < n then x % n + d else x % n + d - n
  {
    var q, s := x / n, x % n;
    assert x == q * n + s;
    if s + d < n {
      DivModOf(q, n, s + d);
    } else {
      assert x + d == (q + 1) * n + (s + d - n);
      DivModOf(q + 1, n, s + d - n);
    }
  }
}
