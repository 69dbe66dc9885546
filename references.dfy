/**
 * References: a quantity spec bound to a unit.
 *
 * `reference<Q, U>` pairs a quantity spec with a unit. Every operation on
 * references works componentwise, calling the quantity-spec algebra on the
 * first component and the unit algebra on the second. Wherever a reference is
 * accepted, a bare associated unit is accepted too and stands for the pair of
 * its derived quantity spec and itself. The unit algebra and the spec relations
 * that live outside this component are passed in as collaborators, and every
 * operation takes the `PowerRule` by which a bare unit's spec is derived:
 * `ExponentDropped` is reference.h as written, `ExponentApplied` the correction.
 */
module References {
  import opened Wrappers
  import opened SpecAlgebra
  import opened Units

  /** `reference<Q, U>`. */
  datatype Reference = Reference(spec: Spec, unit: Unit)

  /** An argument of the reference operations: a reference, or a bare unit standing for one. */
  datatype Operand = Ref(reference: Reference) | BareUnit(unit: Unit)

  /** A bare unit is accepted only when it is an associated unit. */
  predicate Admissible(a: Operand) {
    a.BareUnit? ==> HasAssociatedQuantity(a.unit)
  }

  /** The unit algebra: product, quotient, equality, interconvertibility and `common_unit`. */
  datatype UnitAlgebra = UnitAlgebra(
    mul: (Unit, Unit) -> Unit,
    div: (Unit, Unit) -> Unit,
    equal: (Unit, Unit) -> bool,
    interconvertible: (Unit, Unit) -> bool,
    common: seq<Unit> -> Option<Unit>)

  /** The character of a quantity spec, which constrains the representations that may bind to it. */
  datatype Character = Scalar | Vector | Tensor

  /** The quantity-spec relations: interconvertibility, `common_quantity_spec` and `character`. */
  datatype SpecRelations = SpecRelations(
    interconvertible: (Spec, Spec) -> bool,
    common: seq<Spec> -> Option<Spec>,
    character: Spec -> Character)

  // ---------------------------------------------------------------------------
  // Projections

  /** `get_quantity_spec`: the spec of a reference, or the spec derived from a bare unit under `rule`. */
  function GetQuantitySpec(rule: PowerRule, a: Operand): Spec
    requires Admissible(a)
  {
    match a
    case Ref(r) => r.spec
    case BareUnit(u) => AssociatedQuantity(u, rule)
  }

  /** `get_unit`: the unit of a reference, or the bare unit itself. */
  function GetUnit(a: Operand): Unit {
    match a
    case Ref(r) => r.unit
    case BareUnit(u) => u
  }

  /** The reference a bare unit stands for; a reference stands for itself. */
  function AsReference(rule: PowerRule, a: Operand): Reference
    requires Admissible(a)
  {
    Reference(GetQuantitySpec(rule, a), GetUnit(a))
  }

  /** The projections of a reference give back its components; a bare unit projects to its derived spec and itself. */
  lemma Projections(rule: PowerRule, r: Reference, u: Unit)
    requires HasAssociatedQuantity(u)
    ensures GetQuantitySpec(rule, Ref(r)) == r.spec && GetUnit(Ref(r)) == r.unit
    ensures AsReference(rule, Ref(r)) == r
    ensures GetUnit(BareUnit(u)) == u
    ensures GetQuantitySpec(rule, BareUnit(u)) == AssociatedQuantity(u, rule)
  {
  }

  // ---------------------------------------------------------------------------
  // Equality, product, quotient

  /**
   * `operator==` on a reference and a reference or bare unit: the specs are
   * identical (same kinds, same exponents) and the units are equal.
   */
  function Equal(ua: UnitAlgebra, rule: PowerRule, r1: Reference, a2: Operand): (b: bool)
    requires Admissible(a2)
    ensures b <==> (forall k :: Exp(r1.spec, k) == Exp(GetQuantitySpec(rule, a2), k))
                   && ua.equal(r1.unit, GetUnit(a2))
  {
    Extensionality(r1.spec, GetQuantitySpec(rule, a2));
    r1.spec == GetQuantitySpec(rule, a2) && ua.equal(r1.unit, GetUnit(a2))
  }

  /** Both operands may not be bare units: that product belongs to the unit algebra. */
  predicate ReferenceOperands(a1: Operand, a2: Operand) {
    Admissible(a1) && Admissible(a2) && !(a1.BareUnit? && a2.BareUnit?)
  }

  /** `operator*`: exponents of the two specs add, and the units are multiplied in operand order. */
  function Multiply(ua: UnitAlgebra, rule: PowerRule, a1: Operand, a2: Operand): (r: Reference)
    requires ReferenceOperands(a1, a2)
    ensures forall k :: Exp(r.spec, k) == Exp(GetQuantitySpec(rule, a1), k) + Exp(GetQuantitySpec(rule, a2), k)
    ensures r.unit == ua.mul(GetUnit(a1), GetUnit(a2))
  {
    Reference(Mul(GetQuantitySpec(rule, a1), GetQuantitySpec(rule, a2)), ua.mul(GetUnit(a1), GetUnit(a2)))
  }

  /** `operator/`: exponents of the divisor's spec are subtracted, and the units are divided in operand order. */
  function Divide(ua: UnitAlgebra, rule: PowerRule, a1: Operand, a2: Operand): (r: Reference)
    requires ReferenceOperands(a1, a2)
    ensures forall k :: Exp(r.spec, k) == Exp(GetQuantitySpec(rule, a1), k) - Exp(GetQuantitySpec(rule, a2), k)
    ensures r.unit == ua.div(GetUnit(a1), GetUnit(a2))
  {
    Reference(Div(GetQuantitySpec(rule, a1), GetQuantitySpec(rule, a2)), ua.div(GetUnit(a1), GetUnit(a2)))
  }

  /**
   * `interconvertible`: spec interconvertibility and unit interconvertibility.
   * With the bare unit first, the call is forwarded with the arguments
   * swapped, so the collaborators always see the reference's side first.
   */
  function Interconvertible(ua: UnitAlgebra, sr: SpecRelations, rule: PowerRule, a1: Operand, a2: Operand): (b: bool)
    requires ReferenceOperands(a1, a2)
    ensures a1.Ref? ==>
      (b <==> sr.interconvertible(a1.reference.spec, GetQuantitySpec(rule, a2))
              && ua.interconvertible(a1.reference.unit, GetUnit(a2)))
    ensures a1.BareUnit? ==>
      (b <==> sr.interconvertible(a2.reference.spec, AssociatedQuantity(a1.unit, rule))
              && ua.interconvertible(a2.reference.unit, a1.unit))
    decreases a1.BareUnit?
  {
    match a1
    case BareUnit(_) => Interconvertible(ua, sr, rule, a2, a1)
    case Ref(r1) =>
      sr.interconvertible(r1.spec, GetQuantitySpec(rule, a2)) && ua.interconvertible(r1.unit, GetUnit(a2))
  }

  /** Each operation treats a bare unit exactly as the reference it stands for, on either side. */
  lemma BareUnitStandsForReference(ua: UnitAlgebra, sr: SpecRelations, rule: PowerRule, r: Reference, u: Unit)
    requires HasAssociatedQuantity(u)
    ensures Equal(ua, rule, r, BareUnit(u)) == Equal(ua, rule, r, Ref(AsReference(rule, BareUnit(u))))
    ensures Multiply(ua, rule, Ref(r), BareUnit(u)) == Multiply(ua, rule, Ref(r), Ref(AsReference(rule, BareUnit(u))))
    ensures Multiply(ua, rule, BareUnit(u), Ref(r)) == Multiply(ua, rule, Ref(AsReference(rule, BareUnit(u))), Ref(r))
    ensures Divide(ua, rule, Ref(r), BareUnit(u)) == Divide(ua, rule, Ref(r), Ref(AsReference(rule, BareUnit(u))))
    ensures Divide(ua, rule, BareUnit(u), Ref(r)) == Divide(ua, rule, Ref(AsReference(rule, BareUnit(u))), Ref(r))
    ensures Interconvertible(ua, sr, rule, Ref(r), BareUnit(u)) ==
            Interconvertible(ua, sr, rule, Ref(r), Ref(AsReference(rule, BareUnit(u))))
  {
  }

  /** The mixed forms of `interconvertible` agree whichever side the bare unit is on. */
  lemma MixedInterconvertibleSymmetric(ua: UnitAlgebra, sr: SpecRelations, rule: PowerRule, r: Reference, u: Unit)
    requires HasAssociatedQuantity(u)
    ensures Interconvertible(ua, sr, rule, BareUnit(u), Ref(r)) == Interconvertible(ua, sr, rule, Ref(r), BareUnit(u))
  {
  }

  /** When both collaborator relations are symmetric, so is reference interconvertibility. */
  lemma InterconvertibleSymmetric(ua: UnitAlgebra, sr: SpecRelations, rule: PowerRule, a1: Operand, a2: Operand)
    requires ReferenceOperands(a1, a2)
    requires forall p, q :: sr.interconvertible(p, q) == sr.interconvertible(q, p)
    requires forall x, y :: ua.interconvertible(x, y) == ua.interconvertible(y, x)
    ensures Interconvertible(ua, sr, rule, a1, a2) == Interconvertible(ua, sr, rule, a2, a1)
  {
  }

  /**
   * Equality is at least as strict as interconvertibility, provided the spec
   * relation is reflexive and unit equality implies unit interconvertibility.
   */
  lemma EqualImpliesInterconvertible(ua: UnitAlgebra, sr: SpecRelations, rule: PowerRule, r1: Reference, a2: Operand)
    requires Admissible(a2)
    requires forall q :: sr.interconvertible(q, q)
    requires forall x, y :: ua.equal(x, y) ==> ua.interconvertible(x, y)
    ensures Equal(ua, rule, r1, a2) ==> Interconvertible(ua, sr, rule, Ref(r1), a2)
  {
    if Equal(ua, rule, r1, a2) {
      Extensionality(r1.spec, GetQuantitySpec(rule, a2));
    }
  }

  /**
   * And strictly so: two distinct named kinds over the same unit (`width[m]` and
   * `height[m]`) are interconvertible when the spec relation says so, yet unequal.
   */
  lemma DistinctKindsSameUnit(ua: UnitAlgebra, sr: SpecRelations, rule: PowerRule, k1: Kind, k2: Kind, u: Unit)
    requires k1 != k2
    requires sr.interconvertible(Named(k1), Named(k2)) && ua.interconvertible(u, u)
    ensures Interconvertible(ua, sr, rule, Ref(Reference(Named(k1), u)), Ref(Reference(Named(k2), u)))
    ensures !Equal(ua, rule, Reference(Named(k1), u), Ref(Reference(Named(k2), u)))
  {
    assert Exp(Named(k1), k1) != Exp(Named(k2), k1);
  }

  /** The spec of a product does not depend on the operand order (the unit may). */
  lemma MultiplySpecCommutes(ua: UnitAlgebra, rule: PowerRule, a1: Operand, a2: Operand)
    requires ReferenceOperands(a1, a2)
    ensures Multiply(ua, rule, a1, a2).spec == Multiply(ua, rule, a2, a1).spec
  {
    MulCommutes(GetQuantitySpec(rule, a1), GetQuantitySpec(rule, a2));
  }

  /** Dividing a product by one of its operands gives back the other operand's spec. */
  lemma DivideUndoesMultiply(ua: UnitAlgebra, rule: PowerRule, a1: Operand, a2: Operand)
    requires ReferenceOperands(a1, a2)
    ensures Divide(ua, rule, Ref(Multiply(ua, rule, a1, a2)), a2).spec == GetQuantitySpec(rule, a1)
    ensures Divide(ua, rule, Ref(Multiply(ua, rule, a1, a2)), a2).unit == ua.div(ua.mul(GetUnit(a1), GetUnit(a2)), GetUnit(a2))
  {
    MulDivCancel(GetQuantitySpec(rule, a1), GetQuantitySpec(rule, a2));
  }

  /** A reference divided by itself, or by the unit it was derived from, has the dimensionless spec. */
  lemma DivideBySelfIsDimensionless(ua: UnitAlgebra, rule: PowerRule, r: Reference, u: Unit)
    requires HasAssociatedQuantity(u)
    ensures Divide(ua, rule, Ref(r), Ref(r)).spec == Dimensionless
    ensures Divide(ua, rule, Ref(AsReference(rule, BareUnit(u))), BareUnit(u)).spec == Dimensionless
  {
    DivSelf(r.spec);
    DivSelf(AssociatedQuantity(u, rule));
  }

  /**
   * Reference and unit algebras stay in lock-step: when the unit product of `u1`
   * and `u2` is the derived unit listing `u1` and `u2`, multiplying the
   * reference `u1` stands for by `u2` gives the reference the product unit
   * stands for; likewise for the quotient with `u1` over `u2`.
   */
  lemma {:induction false} LockStep(ua: UnitAlgebra, rule: PowerRule, u1: Unit, u2: Unit)
    requires HasAssociatedQuantity(u1) && HasAssociatedQuantity(u2)
    requires ua.mul(u1, u2).referenceUnit.None? && ua.mul(u1, u2).fraction == Some(Fraction([Plain(u1), Plain(u2)], []))
    requires ua.div(u1, u2).referenceUnit.None? && ua.div(u1, u2).fraction == Some(Fraction([Plain(u1)], [Plain(u2)]))
    ensures HasAssociatedQuantity(ua.mul(u1, u2)) && HasAssociatedQuantity(ua.div(u1, u2))
    ensures Multiply(ua, rule, Ref(AsReference(rule, BareUnit(u1))), BareUnit(u2)) == AsReference(rule, BareUnit(ua.mul(u1, u2)))
    ensures Divide(ua, rule, Ref(AsReference(rule, BareUnit(u1))), BareUnit(u2)) == AsReference(rule, BareUnit(ua.div(u1, u2)))
  {
    var q1, q2 := AssociatedQuantity(u1, rule), AssociatedQuantity(u2, rule);
    var both, one, other := [Plain(u1), Plain(u2)], [Plain(u1)], [Plain(u2)];
    assert FactorAssociated(Plain(u1)) && FactorAssociated(Plain(u2));
    assert AllAssociated(both) && AllAssociated(one) && AllAssociated(other);
    ListQuantityShort([], rule);
    ListQuantityShort(one, rule);
    ListQuantityShort(other, rule);
    assert both == one + other;
    ListQuantityAppend(one, other, rule);
    DivIdentity(Mul(q1, q2));
  }

  /**
   * On a bare unit without `power<...>` elements the two power rules agree, so
   * every reference operation gives the same answer under either rule.
   */
  lemma {:induction false} PowerFreeOperandsAgree(ua: UnitAlgebra, sr: SpecRelations, r: Reference, u: Unit)
    requires HasAssociatedQuantity(u) && PowerFree(u)
    ensures GetQuantitySpec(ExponentDropped, BareUnit(u)) == GetQuantitySpec(ExponentApplied, BareUnit(u))
    ensures Equal(ua, ExponentDropped, r, BareUnit(u)) == Equal(ua, ExponentApplied, r, BareUnit(u))
    ensures Multiply(ua, ExponentDropped, Ref(r), BareUnit(u)) == Multiply(ua, ExponentApplied, Ref(r), BareUnit(u))
    ensures Multiply(ua, ExponentDropped, BareUnit(u), Ref(r)) == Multiply(ua, ExponentApplied, BareUnit(u), Ref(r))
    ensures Divide(ua, ExponentDropped, Ref(r), BareUnit(u)) == Divide(ua, ExponentApplied, Ref(r), BareUnit(u))
    ensures Divide(ua, ExponentDropped, BareUnit(u), Ref(r)) == Divide(ua, ExponentApplied, BareUnit(u), Ref(r))
    ensures Interconvertible(ua, sr, ExponentDropped, Ref(r), BareUnit(u)) ==
            Interconvertible(ua, sr, ExponentApplied, Ref(r), BareUnit(u))
  {
    PowerFreeRulesAgree(u);
  }

  // ---------------------------------------------------------------------------
  // Common reference

  /** The specs of a list of operands, in order. */
  function SpecsOf(rule: PowerRule, rs: seq<Operand>): (qs: seq<Spec>)
    requires forall i :: 0 <= i < |rs| ==> Admissible(rs[i])
    ensures |qs| == |rs|
    ensures forall i :: 0 <= i < |rs| ==> qs[i] == GetQuantitySpec(rule, rs[i])
  {
    if rs == [] then [] else [GetQuantitySpec(rule, rs[0])] + SpecsOf(rule, rs[1..])
  }

  /** The units of a list of operands, in order. */
  function UnitsOf(rs: seq<Operand>): (us: seq<Unit>)
    ensures |us| == |rs|
    ensures forall i :: 0 <= i < |rs| ==> us[i] == GetUnit(rs[i])
  {
    if rs == [] then [] else [GetUnit(rs[0])] + UnitsOf(rs[1..])
  }

  /**
   * `common_reference` over references: defined exactly when both
   * `common_quantity_spec` of the specs and `common_unit` of the units resolve,
   * and then the reference pairing the two results.
   */
  function CommonReference(ua: UnitAlgebra, sr: SpecRelations, rule: PowerRule, rs: seq<Operand>): (r: Option<Reference>)
    requires |rs| >= 2 && forall i :: 0 <= i < |rs| ==> Admissible(rs[i])
    ensures r.Some? <==> sr.common(SpecsOf(rule, rs)).Some? && ua.common(UnitsOf(rs)).Some?
    ensures r.Some? ==>
      r.value.spec == sr.common(SpecsOf(rule, rs)).value && r.value.unit == ua.common(UnitsOf(rs)).value
  {
    match (sr.common(SpecsOf(rule, rs)), ua.common(UnitsOf(rs)))
    case (Some(q), Some(u)) => Some(Reference(q, u))
    case _ => None
  }

  /**
   * `common_reference` over bare units: defined exactly when `common_unit`
   * resolves to an associated unit, and then that unit itself.
   */
  function CommonReferenceOfUnits(ua: UnitAlgebra, us: seq<Unit>): (r: Option<Unit>)
    requires |us| >= 2 && forall i :: 0 <= i < |us| ==> HasAssociatedQuantity(us[i])
    ensures r.Some? <==> ua.common(us).Some? && HasAssociatedQuantity(ua.common(us).value)
    ensures r.Some? ==> r.value == ua.common(us).value && Admissible(BareUnit(r.value))
  {
    match ua.common(us)
    case Some(u) => if HasAssociatedQuantity(u) then Some(u) else None
    case None => None
  }

  // ---------------------------------------------------------------------------
  // Binding a value to a reference

  /** A quantity: a value tagged with the reference (or bare unit) it was bound to. */
  datatype Quantity<V> = Quantity(reference: Operand, value: V)

  /** Why binding failed. */
  datatype BindError =
      /** The representation does not satisfy the spec's character. */
    | CharacterMismatch
      /** `Quantity * Reference` is deleted: write `q * (1 * r)`. */
    | QuantityTimesReference

  /** The left operand of `lhs * R`: a plain value or a quantity. */
  datatype Multiplicand<V> = Number(value: V) | QuantityOperand(quantity: Quantity<V>)

  /**
   * `lhs * R`. A value whose representation satisfies the character of `R`'s
   * spec (`representationOf` is `RepresentationOf<Rep, ·>` for the value's type)
   * becomes a quantity tagged with exactly `R`; a quantity on the left is
   * rejected with its own error.
   */
  function MultiplyByReference<V>(sr: SpecRelations, rule: PowerRule, representationOf: Character -> bool,
                                  lhs: Multiplicand<V>, R: Operand): (r: Result<Quantity<V>, BindError>)
    requires Admissible(R)
    ensures lhs.QuantityOperand? ==> r == Failure(QuantityTimesReference)
    ensures lhs.Number? ==> (r.Success? <==> representationOf(sr.character(GetQuantitySpec(rule, R))))
    ensures lhs.Number? && r.Failure? ==> r.error == CharacterMismatch
    ensures r.Success? ==> r.value.reference == R && r.value.value == lhs.value
  {
    match lhs
    case QuantityOperand(_) => Failure(QuantityTimesReference)
    case Number(v) =>
      if representationOf(sr.character(GetQuantitySpec(rule, R))) then Success(Quantity(R, v))
      else Failure(CharacterMismatch)
  }

  /** `R(value)`: the call operator of a reference, constrained by the character of `R`'s own spec. */
  function Call<V>(sr: SpecRelations, representationOf: Character -> bool, r: Reference, value: V)
    : (q: Result<Quantity<V>, BindError>)
    ensures q.Success? <==> representationOf(sr.character(r.spec))
    ensures q.Success? ==> q.value == Quantity(Ref(r), value)
    ensures q.Failure? ==> q.error == CharacterMismatch
  {
    if representationOf(sr.character(r.spec)) then Success(Quantity(Ref(r), value))
    else Failure(CharacterMismatch)
  }

  /** Calling a reference and multiplying a value by it produce the same quantity or the same error. */
  lemma CallAgreesWithMultiply<V>(sr: SpecRelations, rule: PowerRule, representationOf: Character -> bool, r: Reference, value: V)
    ensures Call(sr, representationOf, r, value) == MultiplyByReference(sr, rule, representationOf, Number(value), Ref(r))
  {
  }
}
