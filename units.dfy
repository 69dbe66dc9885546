/**
 * Units as seen by the derivation of a unit's associated quantity spec.
 *
 * A unit type is described by the members the derivation probes for:
 * `reference_unit` (a scaled unit names the unit it scales), the `_num_` /
 * `_den_` pair of type lists (a derived unit), and `base_quantity` (a unit
 * bound directly to a quantity spec). Elements of those type lists are units
 * or `power<U, Num, Den>` terms. The derivation tries the members in a fixed
 * order and recurses into nested units.
 */
module Units {
  import opened Wrappers
  import opened SpecAlgebra

  /** A unit type together with the members it declares. */
  datatype Unit = Unit(
    symbol: string,
    referenceUnit: Option<Unit>,
    fraction: Option<Fraction>,
    baseQuantity: Option<Spec>)

  /** The `_num_` and `_den_` type lists of a derived unit. */
  datatype Fraction = Fraction(num: seq<Factor>, den: seq<Factor>)

  /** An element of a unit type list: a unit, or `power<U, Num, Den>` with exponent Num/Den. */
  datatype Factor = Plain(unit: Unit) | Power(unit: Unit, exponent: real)

  /**
   * Whether a quantity spec can be derived from `u`: the same member probes
   * as the derivation, in the same order, with a unit that declares none of the
   * three members rejected. This is the closure on which `AssociatedUnit` is
   * satisfied.
   */
  predicate HasAssociatedQuantity(u: Unit)
    decreases u
  {
    if u.referenceUnit.Some? then HasAssociatedQuantity(u.referenceUnit.value)
    else if u.fraction.Some? then AllAssociated(u.fraction.value.num) && AllAssociated(u.fraction.value.den)
    else u.baseQuantity.Some?
  }

  /** Every unit of a type list (bare or under a power) has an associated quantity spec. */
  predicate AllAssociated(fs: seq<Factor>)
    decreases fs
  {
    forall i :: 0 <= i < |fs| ==> FactorAssociated(fs[i])
  }

  /** The unit of a type-list element (bare or under a power) has an associated quantity spec. */
  predicate FactorAssociated(f: Factor)
    decreases f
  {
    HasAssociatedQuantity(f.unit)
  }

  /**
   * How a `power<U, Vs...>` element is derived: as reference.h writes it, the
   * exponents are dropped and the result is the derivation of `U`; the corrected
   * rule raises that derivation to the exponent.
   */
  datatype PowerRule = ExponentDropped | ExponentApplied

  /**
   * The quantity spec associated with a unit: a scaled unit derives from the
   * unit it scales, a derived unit divides the derivation of its numerator list
   * by that of its denominator list, and otherwise the unit's base quantity is
   * returned.
   */
  function AssociatedQuantity(u: Unit, rule: PowerRule): Spec
    requires HasAssociatedQuantity(u)
    decreases u
  {
    if u.referenceUnit.Some? then AssociatedQuantity(u.referenceUnit.value, rule)
    else if u.fraction.Some? then
      Div(ListQuantity(u.fraction.value.num, rule), ListQuantity(u.fraction.value.den, rule))
    else u.baseQuantity.value
  }

  /** A type list: the left fold `dimensionless * d(U1) * ... * d(Un)`. */
  function ListQuantity(fs: seq<Factor>, rule: PowerRule): Spec
    requires AllAssociated(fs)
    decreases fs
  {
    if fs == [] then Dimensionless
    else Mul(ListQuantity(fs[..|fs| - 1], rule), FactorQuantity(fs[|fs| - 1], rule))
  }

  /** One element of a type list. */
  function FactorQuantity(f: Factor, rule: PowerRule): Spec
    requires FactorAssociated(f)
    decreases f
  {
    match f
    case Plain(u) => AssociatedQuantity(u, rule)
    case Power(u, e) =>
      if rule == ExponentApplied then Pow(AssociatedQuantity(u, rule), e)
      else AssociatedQuantity(u, rule)
  }

  /**
   * The members are probed in a fixed order: `reference_unit` wins over the
   * `_num_`/`_den_` pair, which wins over `base_quantity`. A member that loses
   * is never looked at, so replacing it changes neither whether the unit is
   * associated nor what it derives to.
   */
  lemma DerivationPriority(u: Unit, rule: PowerRule, f: Option<Fraction>, b: Option<Spec>)
    requires HasAssociatedQuantity(u)
    ensures u.referenceUnit.Some? ==>
      HasAssociatedQuantity(u.(fraction := f, baseQuantity := b)) &&
      AssociatedQuantity(u.(fraction := f, baseQuantity := b), rule) == AssociatedQuantity(u, rule)
    ensures u.referenceUnit.None? && u.fraction.Some? ==>
      HasAssociatedQuantity(u.(baseQuantity := b)) &&
      AssociatedQuantity(u.(baseQuantity := b), rule) == AssociatedQuantity(u, rule)
    ensures u.referenceUnit.None? && u.fraction.None? ==>
      u.baseQuantity.Some? && AssociatedQuantity(u, rule) == u.baseQuantity.value
  {
  }

  /** The empty type list derives to `dimensionless`, a one-element list to its element. */
  lemma {:induction false} ListQuantityShort(fs: seq<Factor>, rule: PowerRule)
    requires AllAssociated(fs) && |fs| <= 1
    ensures fs == [] ==> ListQuantity(fs, rule) == Dimensionless
    ensures |fs| == 1 ==> ListQuantity(fs, rule) == FactorQuantity(fs[0], rule)
  {
    if |fs| == 1 {
      assert fs[..0] == [];
      MulIdentity(FactorQuantity(fs[0], rule));
    }
  }

  /** Concatenating type lists multiplies their derivations. */
  lemma {:induction false} ListQuantityAppend(xs: seq<Factor>, ys: seq<Factor>, rule: PowerRule)
    requires AllAssociated(xs) && AllAssociated(ys)
    ensures AllAssociated(xs + ys)
    ensures ListQuantity(xs + ys, rule) == Mul(ListQuantity(xs, rule), ListQuantity(ys, rule))
    decreases |ys|
  {
    if ys == [] {
      assert xs + ys == xs;
      MulIdentity(ListQuantity(xs, rule));
    } else {
      var n := |ys| - 1;
      var init := ys[..n];
      assert AllAssociated(init);
      ListQuantityAppend(xs, init, rule);
      DropLast(xs, ys);
      assert (xs + ys)[|xs + ys| - 1] == ys[n];
      MulAssociates(ListQuantity(xs, rule), ListQuantity(init, rule), FactorQuantity(ys[n], rule));
    }
  }

  /** The derivation of a type list does not depend on the order of its elements. */
  lemma {:induction false} ListQuantityOrderIrrelevant(xs: seq<Factor>, ys: seq<Factor>, rule: PowerRule)
    requires AllAssociated(xs) && AllAssociated(ys)
    requires multiset(xs) == multiset(ys)
    ensures ListQuantity(xs, rule) == ListQuantity(ys, rule)
    decreases |xs|
  {
    if xs == [] {
      assert |ys| == |multiset(ys)| == 0;
    } else {
      var n := |xs| - 1;
      var last := xs[n];
      assert xs == xs[..n] + [last];
      assert last in multiset(ys);
      var j :| 0 <= j < |ys| && ys[j] == last;
      var before, after := ys[..j], ys[j + 1..];
      assert ys == before + [last] + after;
      RemoveMatching(xs[..n], last, before, after);
      assert AllAssociated(xs[..n]);
      assert AllAssociated(before) && AllAssociated(after);
      ListQuantityOrderIrrelevant(xs[..n], before + after, rule);
      ListQuantityExtract(before, last, after, rule);
    }
  }

  /** Removing one occurrence of the same element from two permutations leaves permutations. */
  lemma RemoveMatching<T>(init: seq<T>, last: T, before: seq<T>, after: seq<T>)
    requires multiset(init + [last]) == multiset(before + [last] + after)
    ensures multiset(init) == multiset(before + after)
  {
    assert multiset(init + [last]) == multiset(init) + multiset{last};
    assert multiset(before + [last] + after) == multiset(before + after) + multiset{last};
    var a, b := multiset(init), multiset(before + after);
    forall x ensures a[x] == b[x] {
      assert (a + multiset{last})[x] == (b + multiset{last})[x];
    }
    assert a == b;
  }

  /** Moving one element of a type list to its end does not change its derivation. */
  lemma {:induction false} ListQuantityExtract(before: seq<Factor>, last: Factor, after: seq<Factor>, rule: PowerRule)
    requires AllAssociated(before) && FactorAssociated(last) && AllAssociated(after)
    ensures AllAssociated(before + [last] + after) && AllAssociated(before + after)
    ensures ListQuantity(before + [last] + after, rule) == Mul(ListQuantity(before + after, rule), FactorQuantity(last, rule))
  {
    assert AllAssociated([last]);
    ListQuantityAppend(before, after, rule);
    ListQuantityAppend(before, [last], rule);
    ListQuantityAppend(before + [last], after, rule);
    ListQuantityShort([last], rule);
    var b, a, l := ListQuantity(before, rule), ListQuantity(after, rule), FactorQuantity(last, rule);
    calc {
      ListQuantity(before + [last] + after, rule);
      Mul(Mul(b, l), a);
      { MulAssociates(b, l, a); MulCommutes(l, a); }
      Mul(b, Mul(a, l));
      { MulAssociates(b, a, l); }
      Mul(Mul(b, a), l);
    }
  }

  /** A derived unit: a type with only the `_num_` / `_den_` type lists. */
  function DerivedUnit(symbol: string, num: seq<Factor>, den: seq<Factor>): (u: Unit)
    ensures AllAssociated(num) && AllAssociated(den) ==> HasAssociatedQuantity(u)
  {
    Unit(symbol, None, Some(Fraction(num, den)), None)
  }

  /** Exchanging the numerator and denominator lists of a derived unit inverts its quantity spec. */
  lemma FractionSwapInverts(symbol: string, num: seq<Factor>, den: seq<Factor>, rule: PowerRule)
    requires AllAssociated(num) && AllAssociated(den)
    ensures AssociatedQuantity(DerivedUnit(symbol, den, num), rule) ==
            Div(Dimensionless, AssociatedQuantity(DerivedUnit(symbol, num, den), rule))
  {
    DivSwap(ListQuantity(num, rule), ListQuantity(den, rule));
  }

  /** `n` copies of the same unit, as the type list of `U * U * ... * U`. */
  function Repeat(u: Unit, n: nat): (fs: seq<Factor>)
    ensures |fs| == n
    ensures forall i :: 0 <= i < n ==> fs[i] == Plain(u)
  {
    if n == 0 then [] else Repeat(u, n - 1) + [Plain(u)]
  }

  /** Appending one more copy of a unit multiplies by the unit's spec. */
  lemma RepeatStep(u: Unit, n: nat, rule: PowerRule)
    requires HasAssociatedQuantity(u) && n > 0
    ensures AllAssociated(Repeat(u, n - 1)) && AllAssociated(Repeat(u, n))
    ensures ListQuantity(Repeat(u, n), rule) ==
            Mul(ListQuantity(Repeat(u, n - 1), rule), AssociatedQuantity(u, rule))
  {
    var fs := Repeat(u, n);
    assert forall i :: 0 <= i < n ==> FactorAssociated(fs[i]);
    assert fs[..n - 1] == Repeat(u, n - 1);
  }

  /** A list of `n` copies of a unit derives to the unit's spec raised to `n`. */
  lemma {:induction false} RepeatQuantity(u: Unit, n: nat, rule: PowerRule)
    requires HasAssociatedQuantity(u)
    ensures AllAssociated(Repeat(u, n))
    ensures ListQuantity(Repeat(u, n), rule) == Pow(AssociatedQuantity(u, rule), n as real)
  {
    var q := AssociatedQuantity(u, rule);
    if n == 0 {
      PowZeroOne(q);
    } else {
      RepeatQuantity(u, n - 1, rule);
      RepeatStep(u, n, rule);
      PowSucc(q, (n - 1) as real);
      assert (n - 1) as real + 1.0 == n as real;
    }
  }

  /**
   * As written, a `power<U, Vs...>` element derives to the spec of `U` whatever
   * its exponent, so `power<U, n>` and the list of `n` copies of `U` disagree
   * whenever `U`'s spec is not dimensionless and `n != 1`.
   */
  lemma PowerExponentDropped(u: Unit, n: nat, e: real)
    requires HasAssociatedQuantity(u)
    ensures FactorQuantity(Power(u, e), ExponentDropped) == AssociatedQuantity(u, ExponentDropped)
    ensures AssociatedQuantity(u, ExponentDropped) != Dimensionless && n != 1 ==>
      ListQuantity([Power(u, n as real)], ExponentDropped) != ListQuantity(Repeat(u, n), ExponentDropped)
  {
    var q := AssociatedQuantity(u, ExponentDropped);
    assert FactorAssociated(Power(u, e));
    assert FactorAssociated(Power(u, n as real));
    assert AllAssociated([Power(u, n as real)]);
    ListQuantityShort([Power(u, n as real)], ExponentDropped);
    RepeatQuantity(u, n, ExponentDropped);
    if q != Dimensionless && n != 1 {
      PowFixedPoint(q, n as real);
    }
  }

  /**
   * With the exponents applied, `power<U, Num, Den>` derives to the spec of `U`
   * raised to Num/Den; in particular `power<U, n>` agrees with `n` copies of `U`.
   */
  lemma PowerExponentApplied(u: Unit, n: nat, e: real)
    requires HasAssociatedQuantity(u)
    ensures FactorQuantity(Power(u, e), ExponentApplied) == Pow(AssociatedQuantity(u, ExponentApplied), e)
    ensures ListQuantity([Power(u, n as real)], ExponentApplied) == ListQuantity(Repeat(u, n), ExponentApplied)
  {
    assert FactorAssociated(Power(u, n as real));
    assert AllAssociated([Power(u, n as real)]);
    ListQuantityShort([Power(u, n as real)], ExponentApplied);
    RepeatQuantity(u, n, ExponentApplied);
  }

  /** A unit none of whose type lists, at any depth, contains a `power<...>` element. */
  predicate PowerFree(u: Unit)
    decreases u
  {
    if u.referenceUnit.Some? then PowerFree(u.referenceUnit.value)
    else if u.fraction.Some? then ListPowerFree(u.fraction.value.num) && ListPowerFree(u.fraction.value.den)
    else true
  }

  /** Every element of a type list is a power-free unit. */
  predicate ListPowerFree(fs: seq<Factor>)
    decreases fs
  {
    forall i :: 0 <= i < |fs| ==> FactorPowerFree(fs[i])
  }

  /** A type-list element that is a bare, power-free unit. */
  predicate FactorPowerFree(f: Factor)
    decreases f
  {
    f.Plain? && PowerFree(f.unit)
  }

  /**
   * The two power rules differ only at `power<...>` elements: the
   * `reference_unit`, `_num_`/`_den_` and `base_quantity` branches never look
   * at an exponent, so a power-free unit derives to the same spec under both.
   */
  lemma {:induction false} PowerFreeRulesAgree(u: Unit)
    requires HasAssociatedQuantity(u) && PowerFree(u)
    ensures AssociatedQuantity(u, ExponentDropped) == AssociatedQuantity(u, ExponentApplied)
    decreases u
  {
    if u.referenceUnit.Some? {
      PowerFreeRulesAgree(u.referenceUnit.value);
    } else if u.fraction.Some? {
      ListPowerFreeRulesAgree(u.fraction.value.num);
      ListPowerFreeRulesAgree(u.fraction.value.den);
    }
  }

  /** A power-free type list derives to the same spec under both power rules. */
  lemma {:induction false} ListPowerFreeRulesAgree(fs: seq<Factor>)
    requires AllAssociated(fs) && ListPowerFree(fs)
    ensures ListQuantity(fs, ExponentDropped) == ListQuantity(fs, ExponentApplied)
    decreases fs
  {
    if fs != [] {
      var n := |fs| - 1;
      assert AllAssociated(fs[..n]) && ListPowerFree(fs[..n]);
      ListPowerFreeRulesAgree(fs[..n]);
      FactorPowerFreeRulesAgree(fs[n]);
    }
  }

  /** A bare power-free element derives to the same spec under both power rules. */
  lemma {:induction false} FactorPowerFreeRulesAgree(f: Factor)
    requires FactorAssociated(f) && FactorPowerFree(f)
    ensures FactorQuantity(f, ExponentDropped) == FactorQuantity(f, ExponentApplied)
    decreases f
  {
    PowerFreeRulesAgree(f.unit);
  }

  /** Dropping the last element of a concatenation with a nonempty right part. */
  lemma DropLast<T>(xs: seq<T>, ys: seq<T>)
    requires |ys| > 0
    ensures (xs + ys)[..|xs + ys| - 1] == xs + ys[..|ys| - 1]
  {
  }
}
