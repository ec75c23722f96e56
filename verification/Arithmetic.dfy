/** Products, quotients and remainders as named functions, with the few facts the proofs need. */
module Arithmetic {

  function Times(x: nat, y: nat): nat { x * y }

  function Quotient(x: nat, d: nat): nat { if d == 0 then 0 else x / d }

  function Modulo(x: nat, d: nat): nat { if d == 0 then x else x % d }

  function Min(a: nat, b: nat): nat { if a < b then a else b }

  function Max(a: nat, b: nat): nat { if a < b then b else a }

  lemma TimesMonotone(x: nat, y: nat, d: nat)
    requires x <= y
    ensures Times(x, d) <= Times(y, d)
  {
    assert Times(y, d) == Times(x, d) + (y - x) * d;
  }

  lemma TimesNext(k: nat, d: nat)
    ensures Times(k + 1, d) == Times(k, d) + d
  {
  }

  lemma TimesAdd(x: nat, y: nat, d: nat)
    ensures Times(x + y, d) == Times(x, d) + Times(y, d)
  {
  }

  lemma TimesCommutes(x: nat, y: nat)
    ensures Times(x, y) == Times(y, x)
  {
  }

  lemma TimesZero(d: nat)
    ensures Times(0, d) == 0
  {
  }

  lemma QuotientFacts(x: nat, d: nat)
    requires d > 0
    ensures Times(Quotient(x, d), d) + Modulo(x, d) == x && Modulo(x, d) < d
  {
  }

  /** The quotient is the one number whose multiple is next below. */
  lemma DivBounds(x: nat, d: nat, q: nat)
    requires d > 0
    ensures Quotient(x, d) == q <==> Times(q, d) <= x < Times(q, d) + d
  {
    hide Times, Quotient, Modulo;
    var p := Quotient(x, d);
    QuotientFacts(x, d);
    TimesNext(p, d);
    TimesNext(q, d);
    if p < q {
      TimesMonotone(p + 1, q, d);
    } else if q < p {
      TimesMonotone(q + 1, p, d);
    }
  }

  lemma Remainder(x: nat, d: nat, q: nat)
    requires d > 0 && Times(q, d) <= x < Times(q, d) + d
    ensures Modulo(x, d) == x - Times(q, d)
  {
    hide Times, Quotient, Modulo;
    DivBounds(x, d, q);
    QuotientFacts(x, d);
  }
}
