/** Real polynomials in the coefficient order `np.roots` takes: highest
    degree first, so `[c4, c3, c2, c1, c0]` stands for
    c4*x^4 + c3*x^3 + c2*x^2 + c1*x + c0.

    The root finder itself is not modelled. A solver receives it as a
    function from coefficient lists to candidate roots, and the two
    predicates below say what the proofs may assume of it. */
module Poly {

  /** Horner's rule with an accumulator: `acc` holds the value of the
      coefficients already consumed. */
  function Horner(acc: real, cs: seq<real>, x: real): real
    decreases |cs|
  {
    if |cs| == 0 then acc else Horner(acc * x + cs[0], cs[1..], x)
  }

  function EvalPoly(cs: seq<real>, x: real): real {
    Horner(0.0, cs, x)
  }

  /** Every value the root finder returns is a root. */
  ghost predicate RootsSound(rootsOf: seq<real> -> seq<real>) {
    forall cs, x :: x in rootsOf(cs) ==> EvalPoly(cs, x) == 0.0
  }

  /** Every real root of a polynomial with a nonzero leading coefficient is
      returned. */
  ghost predicate RootsComplete(rootsOf: seq<real> -> seq<real>) {
    forall cs, x :: |cs| > 0 && cs[0] != 0.0 && EvalPoly(cs, x) == 0.0 ==> x in rootsOf(cs)
  }

  lemma HornerStep(acc: real, cs: seq<real>, x: real)
    requires |cs| > 0
    ensures Horner(acc, cs, x) == Horner(acc * x + cs[0], cs[1..], x)
  {
  }

  /** A five-coefficient list evaluates to its nested Horner form. */
  lemma Horner5(a: real, b: real, c: real, d: real, e: real, x: real)
    ensures EvalPoly([a, b, c, d, e], x) == (((a * x + b) * x + c) * x + d) * x + e
  {
    var s := [a, b, c, d, e];
    var a1 := 0.0 * x + a;
    var a2 := a1 * x + b;
    var a3 := a2 * x + c;
    var a4 := a3 * x + d;
    HornerStep(0.0, s, x);
    HornerStep(a1, s[1..], x);
    HornerStep(a2, s[2..], x);
    HornerStep(a3, s[3..], x);
    HornerStep(a4, s[4..], x);
    assert s[1..][1..] == s[2..];
    assert s[2..][1..] == s[3..];
    assert s[3..][1..] == s[4..];
    assert s[4..][1..] == [];
  }

  /** The nested Horner form of a quartic as a sum of monomials. */
  lemma HornerExpand(c4: real, c3: real, c2: real, c1: real, c0: real, x: real)
    ensures (((c4 * x + c3) * x + c2) * x + c1) * x + c0
         == c4 * x * x * x * x + c3 * x * x * x + c2 * x * x + c1 * x + c0
  {
  }
}
