/**
 * Normalised quantity specifications.
 *
 * A quantity spec in normal form is a product of named quantity kinds raised to
 * rational exponents. It is represented as a finite map from the kind's name to
 * its exponent; a factor whose exponent becomes zero is cancelled, so no zero
 * exponent is ever stored, and two specs are equal exactly when every kind has the
 * same exponent in both. The empty map is the dimensionless identity.
 */
module SpecAlgebra {

  /** The name of a named quantity kind (`isq::length`, `isq::speed`, ...). */
  type Kind = string

  /** A quantity spec in normal form: every stored exponent is nonzero. */
  type Spec = m: map<Kind, real> | forall k :: k in m ==> m[k] != 0.0

  /** The exponent of kind `k` in `q`; zero when `k` does not occur. */
  function Exp(q: Spec, k: Kind): real {
    if k in q then q[k] else 0.0
  }

  /** The dimensionless quantity spec, identity of the product. */
  const Dimensionless: Spec := map[]

  /** A named kind on its own, exponent one. */
  function Named(k: Kind): (q: Spec)
    ensures Exp(q, k) == 1.0
    ensures forall j :: j != k ==> Exp(q, j) == 0.0
  {
    map[k := 1.0]
  }

  /** Product: exponents of the same kind add; a zero sum cancels the factor. */
  function Mul(a: Spec, b: Spec): (r: Spec)
    ensures forall k :: Exp(r, k) == Exp(a, k) + Exp(b, k)
  {
    map k | k in a.Keys + b.Keys && Exp(a, k) + Exp(b, k) != 0.0 :: Exp(a, k) + Exp(b, k)
  }

  /** Quotient: exponents of the dividend minus those of the divisor. */
  function Div(a: Spec, b: Spec): (r: Spec)
    ensures forall k :: Exp(r, k) == Exp(a, k) - Exp(b, k)
  {
    map k | k in a.Keys + b.Keys && Exp(a, k) - Exp(b, k) != 0.0 :: Exp(a, k) - Exp(b, k)
  }

  /** Power with a rational exponent: every exponent is scaled by `e`. */
  function Pow(a: Spec, e: real): (r: Spec)
    ensures forall k :: Exp(r, k) == Exp(a, k) * e
  {
    map k | k in a && a[k] * e != 0.0 :: a[k] * e
  }

  /** Two normal forms are equal exactly when all exponents agree. */
  lemma {:induction false} Extensionality(a: Spec, b: Spec)
    ensures a == b <==> forall k :: Exp(a, k) == Exp(b, k)
  {
    if forall k :: Exp(a, k) == Exp(b, k) {
      forall k ensures k in a <==> k in b {
        assert Exp(a, k) == Exp(b, k);
      }
      assert a.Keys == b.Keys;
      forall k | k in a ensures a[k] == b[k] {
        assert Exp(a, k) == Exp(b, k);
      }
    }
  }

  lemma MulCommutes(a: Spec, b: Spec)
    ensures Mul(a, b) == Mul(b, a)
  {
    Extensionality(Mul(a, b), Mul(b, a));
  }

  lemma MulAssociates(a: Spec, b: Spec, c: Spec)
    ensures Mul(Mul(a, b), c) == Mul(a, Mul(b, c))
  {
    Extensionality(Mul(Mul(a, b), c), Mul(a, Mul(b, c)));
  }

  /** Multiplying by the dimensionless spec, on either side, changes nothing. */
  lemma MulIdentity(a: Spec)
    ensures Mul(Dimensionless, a) == a
    ensures Mul(a, Dimensionless) == a
  {
    Extensionality(Mul(Dimensionless, a), a);
    Extensionality(Mul(a, Dimensionless), a);
  }

  /** Dividing by the dimensionless spec changes nothing. */
  lemma DivIdentity(a: Spec)
    ensures Div(a, Dimensionless) == a
  {
    Extensionality(Div(a, Dimensionless), a);
  }

  /** Dividing a spec by itself yields the dimensionless spec. */
  lemma DivSelf(a: Spec)
    ensures Div(a, a) == Dimensionless
  {
    Extensionality(Div(a, a), Dimensionless);
  }

  /** A spec times its reciprocal is dimensionless. */
  lemma MulInverse(a: Spec)
    ensures Mul(a, Div(Dimensionless, a)) == Dimensionless
  {
    Extensionality(Mul(a, Div(Dimensionless, a)), Dimensionless);
  }

  /** Division is multiplication by the reciprocal. */
  lemma DivIsMulReciprocal(a: Spec, b: Spec)
    ensures Div(a, b) == Mul(a, Div(Dimensionless, b))
  {
    Extensionality(Div(a, b), Mul(a, Div(Dimensionless, b)));
  }

  /** Multiplying and then dividing by the same spec gives back the original. */
  lemma MulDivCancel(a: Spec, b: Spec)
    ensures Div(Mul(a, b), b) == a
  {
    Extensionality(Div(Mul(a, b), b), a);
  }

  /** Swapping dividend and divisor yields the reciprocal. */
  lemma DivSwap(a: Spec, b: Spec)
    ensures Div(b, a) == Div(Dimensionless, Div(a, b))
  {
    Extensionality(Div(b, a), Div(Dimensionless, Div(a, b)));
  }

  /** Raising to the power zero yields the dimensionless spec; to the power one, the spec itself. */
  lemma PowZeroOne(a: Spec)
    ensures Pow(a, 0.0) == Dimensionless
    ensures Pow(a, 1.0) == a
  {
    Extensionality(Pow(a, 0.0), Dimensionless);
    Extensionality(Pow(a, 1.0), a);
  }

  /** Powers of the same spec multiply by adding their exponents. */
  lemma PowAdd(a: Spec, x: real, y: real)
    ensures Mul(Pow(a, x), Pow(a, y)) == Pow(a, x + y)
  {
    Extensionality(Mul(Pow(a, x), Pow(a, y)), Pow(a, x + y));
  }

  /** One more factor of a spec raises its power by one. */
  lemma PowSucc(a: Spec, m: real)
    ensures Mul(Pow(a, m), a) == Pow(a, m + 1.0)
  {
    PowZeroOne(a);
    PowAdd(a, m, 1.0);
  }

  /** Raising a spec that is not dimensionless to any power other than one changes it. */
  lemma PowFixedPoint(a: Spec, e: real)
    requires a != Dimensionless && e != 1.0
    ensures Pow(a, e) != a
  {
    var k :| k in a;
    assert Exp(Pow(a, e), k) == a[k] * e;
  }
}
