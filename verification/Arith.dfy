/** Products, quotients and remainders with both operands variable. */
module Arith {

  function Mul(a: nat, b: nat): nat {
    a * b
  }

  function Quot(a: nat, b: nat): nat
    requires b > 0
  {
    a / b
  }

  lemma QuotBounds(a: nat, b: nat)
    requires b > 0
    ensures Mul(Quot(a, b), b) <= a < Mul(Quot(a, b) + 1, b)
    ensures Quot(a, b) <= Mul(Quot(a, b), b)
  {
  }

  lemma MulUp(a: nat, b: nat, k: nat)
    requires a <= b
    ensures Mul(a, k) <= Mul(b, k)
  {
    assert Mul(b, k) == Mul(a, k) + (b - a) * k;
  }

  lemma MulStep(a: nat, b: nat, d: nat)
    requires a < b
    ensures Mul(a, d) + d <= Mul(b, d)
  {
    MulUp(a + 1, b, d);
    assert Mul(a + 1, d) == Mul(a, d) + d;
  }

  lemma DivMod(x: nat, d: nat)
    requires d > 0
    ensures x == Mul(Quot(x, d), d) + x % d
  {
  }

  lemma DivModUnique(x: nat, d: nat, q: nat, r: nat)
    requires x == Mul(q, d) + r && r < d
    ensures Quot(x, d) == q && x % d == r
  {
    hide Mul, Quot;
    DivMod(x, d);
    if Quot(x, d) < q {
      MulStep(Quot(x, d), q, d);
    } else if q < Quot(x, d) {
      MulStep(q, Quot(x, d), d);
    }
  }
}
