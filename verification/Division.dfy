/** Division by a positive number that is not a constant. */
module Division {
  function Quot(x: nat, s: nat): nat
    requires s > 0
  {
    x / s
  }

  function Rem(x: nat, s: nat): (r: nat)
    requires s > 0
    ensures r < s
  {
    x % s
  }

  lemma Divided(x: nat, s: nat)
    requires s > 0
    ensures x == Quot(x, s) * s + Rem(x, s)
  {
  }

  lemma {:induction false} Monotone(a: nat, b: nat, s: nat)
    requires a <= b
    ensures a * s <= b * s && (a < b ==> a * s + s <= b * s)
    decreases b
  {
    if a < b {
      Monotone(a, b - 1, s);
      assert b * s == (b - 1) * s + s;
    }
  }

  lemma DividedUniquely(x: nat, s: nat, q: nat, r: nat)
    requires s > 0 && r < s && x == q * s + r
    ensures Quot(x, s) == q && Rem(x, s) == r
  {
    hide Quot, Rem;
    Divided(x, s);
    if q < Quot(x, s) {
      Monotone(q, Quot(x, s), s);
    } else if q > Quot(x, s) {
      Monotone(Quot(x, s), q, s);
    }
  }

  lemma DividedSum(x: nat, s: nat, n: nat)
    requires s > 0
    ensures Quot(x + n * s, s) == Quot(x, s) + n && Rem(x + n * s, s) == Rem(x, s)
  {
    hide Quot, Rem;
    Divided(x, s);
    assert (Quot(x, s) + n) * s == Quot(x, s) * s + n * s;
    DividedUniquely(x + n * s, s, Quot(x, s) + n, Rem(x, s));
  }

  lemma DividedSmall(x: nat, s: nat)
    requires x < s
    ensures Quot(x, s) == 0 && Rem(x, s) == x
  {
    DividedUniquely(x, s, 0, x);
  }

  lemma QuotBelow(x: nat, s: nat, n: nat)
    requires s > 0
    ensures Quot(x, s) < n <==> x < n * s
  {
    hide Quot, Rem;
    Divided(x, s);
    if Quot(x, s) < n {
      Monotone(Quot(x, s), n, s);
    } else {
      Monotone(n, Quot(x, s), s);
    }
  }

  lemma DividedBoth(x: nat, y: nat, s: nat)
    requires s > 0
    ensures Rem(x, s) + Rem(y, s) < s ==> Quot(x + y, s) == Quot(x, s) + Quot(y, s) && Rem(x + y, s) == Rem(x, s) + Rem(y, s)
    ensures Rem(x, s) + Rem(y, s) >= s ==> Quot(x + y, s) == Quot(x, s) + Quot(y, s) + 1 && Rem(x + y, s) == Rem(x, s) + Rem(y, s) - s
  {
    hide Quot, Rem;
    Divided(x, s);
    Divided(y, s);
    var q := Quot(x, s) + Quot(y, s);
    assert q * s == Quot(x, s) * s + Quot(y, s) * s;
    assert (q + 1) * s == q * s + s;
    if Rem(x, s) + Rem(y, s) < s {
      DividedUniquely(x + y, s, q, Rem(x, s) + Rem(y, s));
    } else {
      DividedUniquely(x + y, s, q + 1, Rem(x, s) + Rem(y, s) - s);
    }
  }

  lemma QuotMonotone(x: nat, y: nat, s: nat)
    requires s > 0 && x <= y
    ensures Quot(x, s) <= Quot(y, s)
  {
    hide Quot, Rem;
    Divided(x, s);
    Divided(y, s);
    if Quot(y, s) < Quot(x, s) {
      Monotone(Quot(y, s), Quot(x, s), s);
    }
  }
}
