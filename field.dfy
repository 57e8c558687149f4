/**
 * The exponent abstraction. Every scalar of Fr and every element of G1, G2
 * and GT is represented by its discrete logarithm modulo the group order R
 * of BLS12-381 (to a fixed generator of its group):
 *   - the group operation (pbcext_element_*_add) is addition mod R,
 *   - pbcext_element_*_mul(x, k) ("x^k" in the paper) is multiplication mod R,
 *   - pbcext_element_*_neg is negation mod R,
 *   - the pairing e(a, b) is a * b mod R in GT.
 * Scalars of Fr are residues mod R already, so one type serves both.
 */
module Field {
  const R: int := 0x73eda753299d7d483339d80809a1d80553bda402fffe5bfeffffffff00000001

  type Elem = x: int | 0 <= x < R

  function Add(a: int, b: int): Elem { (a + b) % R }
  function Sub(a: int, b: int): Elem { (a - b) % R }
  function Neg(a: int): Elem { (-a) % R }
  function Mul(a: int, b: int): Elem { (a * b) % R }
  /** The pairing e(a, b), in the exponent. */
  function Pair(a: int, b: int): Elem { Mul(a, b) }

  /** Congruence modulo R. */
  predicate Eqv(a: int, b: int) { a % R == b % R }

  lemma ModShift(x: int, q: int)
    ensures (x + q * R) % R == x % R
  {
  }

  lemma EqvSelf(x: int)
    ensures Eqv(x % R, x)
  {
  }

  lemma EqvMulL(a: int, b: int)
    ensures Eqv((a % R) * b, a * b)
  {
    var q := a / R;
    assert a == q * R + a % R;
    assert a * b == (a % R) * b + (q * b) * R;
    ModShift((a % R) * b, q * b);
  }

  /** Sums and products respect congruence. */
  lemma AddEqv(a: int, a': int, b: int, b': int)
    requires Eqv(a, a') && Eqv(b, b')
    ensures Eqv(a + b, a' + b')
  {
    var qa, qb := a / R - a' / R, b / R - b' / R;
    assert a == a' + qa * R;
    assert b == b' + qb * R;
    assert a + b == (a' + b') + (qa + qb) * R;
    ModShift(a' + b', qa + qb);
  }

  lemma NegEqv(a: int, a': int)
    requires Eqv(a, a')
    ensures Eqv(-a, -a')
  {
    var q := a / R - a' / R;
    assert a == a' + q * R;
    assert -a' == -a + q * R;
    ModShift(-a, q);
  }

  lemma MulEqv(a: int, a': int, b: int, b': int)
    requires Eqv(a, a') && Eqv(b, b')
    ensures Eqv(a * b, a' * b')
  {
    EqvMulL(a, b);
    EqvMulL(a', b);
    EqvMulL(b, a');
    EqvMulL(b', a');
    assert a * b == b * a;
    assert a' * b == b * a';
    assert a' * b' == b' * a';
  }

  /** Two elements are equal iff they are congruent. */
  lemma ElemEqv(a: Elem, b: Elem)
    ensures Eqv(a, b) <==> a == b
  {
  }

  lemma SubMulEqv(k: int, c: int, a: int)
    ensures Eqv(Sub(k, Mul(c, a)), k - c * a)
  {
    EqvSelf(c * a);
    NegEqv(Mul(c, a) as int, c * a);
    AddEqv(k, k, -(Mul(c, a) as int), -(c * a));
    EqvSelf(k - Mul(c, a));
  }

  lemma PolyScaled(g: int, k: int, c: int, a: int)
    ensures g * (k - c * a) == g * k - c * (g * a)
  {
  }

  /** g^(k - c*a) is congruent to g*k - c*(g*a). */
  lemma ScaledResponse(g: Elem, k: Elem, c: Elem, a: Elem)
    ensures Eqv(Mul(g, Sub(k, Mul(c, a))), g * k - c * (g * a))
  {
    var s, p := Sub(k, Mul(c, a)), k - c * a;
    assert Eqv(g * s, g * p) by {
      SubMulEqv(k, c, a);
      MulEqv(g, g, s, p);
    }
    assert g * p == g * k - c * (g * a) by { PolyScaled(g, k, c, a); }
    EqvSelf(g * s);
  }

  /** Scaling respects congruence: x ~ x' gives x^c ~ x'*c. */
  lemma ScaleEqv(x: int, x': int, c: int)
    requires Eqv(x, x')
    ensures Eqv(Mul(x, c), x' * c)
  {
    MulEqv(x, x', c, c);
    EqvSelf(x * c);
  }

  /** Adding two congruent pairs. */
  lemma SumEqv(a: int, a': int, b: int, b': int)
    requires Eqv(a, a') && Eqv(b, b')
    ensures Eqv(Add(a, b), a' + b')
  {
    AddEqv(a, a', b, b');
    EqvSelf(a + b);
  }

  /**
   * The Schnorr identity behind the completeness of the proofs: with
   * response s = k - c*a and public value A = g^a, g^s * A^c = g^k.
   */
  lemma Schnorr(g: Elem, k: Elem, c: Elem, a: Elem)
    ensures Add(Mul(g, Sub(k, Mul(c, a))), Mul(Mul(g, a), c)) == Mul(g, k)
  {
    var s := Sub(k, Mul(c, a));
    ScaledResponse(g, k, c, a);
    EqvSelf(g * a);
    ScaleEqv(Mul(g, a), g * a, c);
    var lhs := Add(Mul(g, s), Mul(Mul(g, a), c));
    SumEqv(Mul(g, s), g * k - c * (g * a), Mul(Mul(g, a), c), g * a * c);
    assert Eqv(lhs, g * k - c * (g * a) + g * a * c);
    PolyCancel(g * k, g * a, c);
    assert Eqv(lhs, g * k);
    EqvSelf(g * k);
    ElemEqv(lhs, Mul(g, k));
  }

  lemma PolyCancel(x: int, y: int, c: int)
    ensures x - c * y + y * c == x
  {
  }

  /**
   * The two-secret form: with s1 = k1 - c*a, s2 = k2 - c*b and
   * C = g^a * D^b, g^s1 * D^s2 * C^c = g^k1 * D^k2.
   */
  lemma Schnorr2(g: Elem, D: Elem, k1: Elem, k2: Elem, c: Elem, a: Elem, b: Elem)
    ensures Add(Add(Mul(g, Sub(k1, Mul(c, a))), Mul(D, Sub(k2, Mul(c, b)))), Mul(Add(Mul(g, a), Mul(D, b)), c))
         == Add(Mul(g, k1), Mul(D, k2))
  {
    var s1, s2 := Sub(k1, Mul(c, a)), Sub(k2, Mul(c, b));
    ScaledResponse(g, k1, c, a);
    ScaledResponse(D, k2, c, b);
    var P := Add(Mul(g, s1), Mul(D, s2));
    SumEqv(Mul(g, s1), g * k1 - c * (g * a), Mul(D, s2), D * k2 - c * (D * b));
    EqvSelf(g * a);
    EqvSelf(D * b);
    SumEqv(Mul(g, a), g * a, Mul(D, b), D * b);
    var C := Add(Mul(g, a), Mul(D, b));
    ScaleEqv(C, g * a + D * b, c);
    SumEqv(P, g * k1 - c * (g * a) + (D * k2 - c * (D * b)), Mul(C, c), (g * a + D * b) * c);
    var lhs := Add(P, Mul(C, c));
    var X := g * k1 - c * (g * a) + (D * k2 - c * (D * b)) + (g * a + D * b) * c;
    assert Eqv(lhs, X);
    PolyCancel2(g * k1, g * a, D * k2, D * b, c);
    assert X == g * k1 + D * k2;
    EqvSelf(g * k1);
    EqvSelf(D * k2);
    SumEqv(Mul(g, k1), g * k1, Mul(D, k2), D * k2);
    var rhs := Add(Mul(g, k1), Mul(D, k2));
    assert Eqv(rhs, g * k1 + D * k2);
    ElemEqv(lhs, rhs);
  }

  lemma PolyStep(a: int, b: int, g: int, x: int, c: int)
    ensures (a - c * b) + (g - c * x) == (a + g) - c * (b + x)
  {
  }

  lemma PolyCancel2(x1: int, y1: int, x2: int, y2: int, c: int)
    ensures x1 - c * y1 + (x2 - c * y2) + (y1 + y2) * c == x1 + x2
  {
  }

  /** A response k - c*a is the nonce once c*a is added back. */
  lemma ResponseEqv(k: Elem, c: Elem, a: Elem)
    ensures Eqv(Sub(k, Mul(c, a)) + c * a, k)
  {
    SubMulEqv(k, c, a);
    AddEqv(Sub(k, Mul(c, a)), k - c * a, c * a, c * a);
  }

  /** One term of a representation proof: g^(r - c*x) ~ g^r - c*g^x. */
  lemma TermEqv(g: Elem, r: Elem, x: Elem, c: Elem)
    ensures Eqv(Mul(g, Sub(r, Mul(c, x))), Mul(g, r) - c * Mul(g, x))
  {
    ScaledResponse(g, r, c, x);
    EqvSelf(g * r);
    EqvSelf(g * x);
    MulEqv(c, c, Mul(g, x), g * x);
    NegEqv(c * Mul(g, x), c * (g * x));
    AddEqv(Mul(g, r), g * r, -(c * Mul(g, x)), -(c * (g * x)));
  }

  /**
   * Cancellation of the challenge: f ~ y*c + V with V ~ G - c*X and y ~ X
   * give f ~ G.
   */
  lemma CancelEqv(f: int, y: int, c: int, V: int, G: int, X: int)
    requires Eqv(f, y * c + V) && Eqv(V, G - c * X) && Eqv(y, X)
    ensures Eqv(f, G)
  {
    MulEqv(y, X, c, c);
    AddEqv(y * c, X * c, V, G - c * X);
    PolyCancel(G, X, c);
  }
  /** Scalings commute: (u^a)^r = (u^r)^a. */
  lemma MulSwap(u: Elem, a: Elem, r: Elem)
    ensures Mul(Mul(u, a), r) == Mul(Mul(u, r), a)
  {
    EqvSelf(u * a);
    ScaleEqv(Mul(u, a), u * a, r);
    EqvSelf(u * r);
    ScaleEqv(Mul(u, r), u * r, a);
    assert u * a * r == u * r * a;
    ElemEqv(Mul(Mul(u, a), r), Mul(Mul(u, r), a));
  }

  /** Scaling distributes over the group operation: (a b)^r = a^r b^r. */
  lemma MulAddDist(a: Elem, b: Elem, r: Elem)
    ensures Mul(Add(a, b), r) == Add(Mul(a, r), Mul(b, r))
  {
    var x, y := Mul(Add(a, b), r), Add(Mul(a, r), Mul(b, r));
    assert Eqv(x, (a + b) * r) by {
      EqvSelf(a + b);
      ScaleEqv(Add(a, b), a + b, r);
    }
    assert Eqv(y, a * r + b * r) by {
      EqvSelf(a * r);
      EqvSelf(b * r);
      SumEqv(Mul(a, r), a * r, Mul(b, r), b * r);
    }
    assert (a + b) * r == a * r + b * r;
    ElemEqv(x, y);
  }
  /** Adding x back after adding its inverse: (c x^-1) x = c. */
  lemma AddNegCancel(c: Elem, x: Elem)
    ensures Add(Add(c, Neg(x)), x) == c
  {
    var d := Add(c, Neg(x));
    EqvSelf(-(x as int));
    AddEqv(c, c, Neg(x), -(x as int));
    EqvSelf(c + Neg(x));
    assert Eqv(d, c - x);
    AddEqv(d, c - x, x, x);
    EqvSelf(d + x);
    assert Eqv(Add(d, x), c);
    ElemEqv(Add(d, x), c);
  }

  /** The group operation cancels on the right: a x = b x gives a = b. */
  lemma AddCancelR(a: Elem, b: Elem, x: Elem)
    requires Add(a, x) == Add(b, x)
    ensures a == b
  {
    assert Eqv(a + x, b + x);
    AddEqv(a + x, b + x, -(x as int), -(x as int));
    assert a + x + -(x as int) == a && b + x + -(x as int) == b;
    ElemEqv(a, b);
  }
}
