/**
 * Which types count as quantity specifications.
 *
 * The library classifies types with concepts: a named quantity spec is a class
 * deriving from some `quantity_spec<...>` (but not a `quantity_spec<...>`
 * specialization itself), a base quantity spec is a named one whose inherited
 * `quantity_spec` carries a base dimension, and the terms that may appear in a
 * `derived_quantity_spec<...>` are named specs, types marked dimensionless,
 * `power<F, ...>` of those, and `per<...>` groups of those three. Types are
 * modelled by a term datatype recording exactly what those concepts inspect.
 * Beside the concepts, `Normalize` gives the normal form a legal term denotes.
 */
module QuantitySpecConcepts {
  import opened Wrappers
  import opened SpecAlgebra

  /** The `quantity_spec<Self, Args...>` base a class inherits, if any. */
  datatype Inheritance =
    | NoQuantitySpecBase
      /** `baseDimension` is `Some` when the argument after `Self` is a base dimension. */
    | QuantitySpecBase(baseDimension: Option<string>)

  /** The shapes of type the concepts distinguish. */
  datatype TypeTerm =
      /** A class type; `dimensionlessTrait` says whether `is_dimensionless` is specialised to true for it. */
    | ClassType(name: Kind, inherits: Inheritance, dimensionlessTrait: bool)
      /** A direct specialization `quantity_spec<...>`. */
    | QuantitySpecSpecialization(baseDimension: Option<string>)
      /** `power<F, Num, Den>`, exponent Num/Den. */
    | PowerOf(factor: TypeTerm, exponent: real)
      /** `per<Ts...>`. */
    | PerOf(elements: seq<TypeTerm>)
      /** `derived_quantity_spec<Expr...>`. */
    | DerivedQuantitySpecOf(expressions: seq<TypeTerm>)

  /** `to_base_specialization_of_quantity_spec(t)` is well-formed: `T` is, or derives from, a `quantity_spec<...>`. */
  predicate DerivesFromQuantitySpec(t: TypeTerm) {
    t.QuantitySpecSpecialization? || (t.ClassType? && t.inherits.QuantitySpecBase?)
  }

  /** `is_specialization_of_quantity_spec<T>`: false unless `T` is `quantity_spec<...>` itself. */
  predicate IsSpecializationOfQuantitySpec(t: TypeTerm) {
    t.QuantitySpecSpecialization?
  }

  /** `NamedQuantitySpec<T>`. */
  predicate IsNamedQuantitySpec(t: TypeTerm) {
    DerivesFromQuantitySpec(t) && !IsSpecializationOfQuantitySpec(t)
  }

  /** `to_base_specialization_of_base_quantity_spec(t)` is well-formed: the inherited `quantity_spec` carries a base dimension. */
  predicate DerivesFromBaseQuantitySpec(t: TypeTerm) {
    (t.QuantitySpecSpecialization? && t.baseDimension.Some?)
    || (t.ClassType? && t.inherits.QuantitySpecBase? && t.inherits.baseDimension.Some?)
  }

  /** `BaseQuantitySpec<T>`. */
  predicate IsBaseQuantitySpec(t: TypeTerm) {
    IsNamedQuantitySpec(t) && DerivesFromBaseQuantitySpec(t)
  }

  /** `is_dimensionless<T>`: false unless specialised for the type. */
  predicate IsDimensionless(t: TypeTerm) {
    t.ClassType? && t.dimensionlessTrait
  }

  /** `is_power_of_quantity_spec<T>`: a `power` whose factor is named or dimensionless. */
  predicate IsPowerOfQuantitySpec(t: TypeTerm) {
    t.PowerOf? && (IsNamedQuantitySpec(t.factor) || IsDimensionless(t.factor))
  }

  /** What a `per` group may contain. */
  predicate IsPerElement(t: TypeTerm) {
    IsNamedQuantitySpec(t) || IsDimensionless(t) || IsPowerOfQuantitySpec(t)
  }

  /** `is_per_of_quantity_specs<T>`: a `per` group all of whose elements are allowed. */
  predicate IsPerOfQuantitySpecs(t: TypeTerm) {
    t.PerOf? && forall i :: 0 <= i < |t.elements| ==> IsPerElement(t.elements[i])
  }

  /** `DerivedQuantitySpecExpr<T>`. */
  predicate IsDerivedQuantitySpecExpr(t: TypeTerm) {
    IsNamedQuantitySpec(t) || IsDimensionless(t) || IsPowerOfQuantitySpec(t) || IsPerOfQuantitySpecs(t)
  }

  /**
   * `DerivedQuantitySpec<T>`: a `derived_quantity_spec<...>` specialization.
   * A `DerivedQuantitySpecOf` term whose arguments fail the template's
   * constraint (see `IsFormedDerivedQuantitySpec`) stands for no C++ type;
   * the concepts are stated on all terms, and `Normalize` rejects such terms.
   */
  predicate IsDerivedQuantitySpec(t: TypeTerm) {
    t.DerivedQuantitySpecOf?
  }

  /** `QuantitySpec<T>`. */
  predicate IsQuantitySpec(t: TypeTerm) {
    IsNamedQuantitySpec(t) || IsDerivedQuantitySpec(t)
  }

  /** A `derived_quantity_spec<Expr...>` whose arguments meet the template's `DerivedQuantitySpecExpr` constraint. */
  predicate IsFormedDerivedQuantitySpec(t: TypeTerm) {
    t.DerivedQuantitySpecOf?
    && forall i :: 0 <= i < |t.expressions| ==> IsDerivedQuantitySpecExpr(t.expressions[i])
  }

  // ---------------------------------------------------------------------------
  // Properties of the classification

  /** A named spec derives from `quantity_spec`, yet no `quantity_spec<...>` specialization is named. */
  lemma NamedCharacterised(t: TypeTerm)
    ensures IsNamedQuantitySpec(t) <==> t.ClassType? && t.inherits.QuantitySpecBase?
    ensures IsSpecializationOfQuantitySpec(t) ==> DerivesFromQuantitySpec(t) && !IsNamedQuantitySpec(t)
  {
  }

  /** Every base quantity spec is named; base additionally needs a base dimension in the inherited `quantity_spec`. */
  lemma BaseIsNamed(t: TypeTerm)
    ensures IsBaseQuantitySpec(t) ==> IsNamedQuantitySpec(t)
    ensures IsBaseQuantitySpec(t) <==>
      t.ClassType? && t.inherits.QuantitySpecBase? && t.inherits.baseDimension.Some?
  {
  }

  /**
   * Only types marked as dimensionless are dimensionless: no `power`, `per`,
   * `derived_quantity_spec` or `quantity_spec<...>` term is, and a marked class
   * is accepted as a derived-expression term whether or not it is named.
   */
  lemma DimensionlessOnlyIfMarked(t: TypeTerm)
    ensures t.PowerOf? || t.PerOf? || t.DerivedQuantitySpecOf? || t.QuantitySpecSpecialization? ==>
      !IsDimensionless(t)
    ensures IsDimensionless(t) ==> IsDerivedQuantitySpecExpr(t) && !IsPerOfQuantitySpecs(t)
    ensures IsDimensionless(t) && !IsNamedQuantitySpec(t) ==> !IsQuantitySpec(t)
  {
  }

  /** A power term is legal exactly when its factor is named or dimensionless: never a power, a `per` or a derived spec. */
  lemma PowerLegality(f: TypeTerm, e: real)
    ensures IsPowerOfQuantitySpec(PowerOf(f, e)) <==> IsNamedQuantitySpec(f) || IsDimensionless(f)
    ensures f.PowerOf? || f.PerOf? || f.DerivedQuantitySpecOf? || f.QuantitySpecSpecialization? ==>
      !IsPowerOfQuantitySpec(PowerOf(f, e))
  {
  }

  /** A `per` group is legal exactly when each element is; the empty group is legal, a nested group never. */
  lemma PerLegality(es: seq<TypeTerm>)
    ensures IsPerOfQuantitySpecs(PerOf(es)) <==> forall i :: 0 <= i < |es| ==> IsPerElement(es[i])
    ensures IsPerOfQuantitySpecs(PerOf([]))
    ensures (exists i :: 0 <= i < |es| && es[i].PerOf?) ==> !IsPerOfQuantitySpecs(PerOf(es))
  {
    if exists i :: 0 <= i < |es| && es[i].PerOf? {
      var i :| 0 <= i < |es| && es[i].PerOf?;
      assert !IsPerElement(es[i]);
    }
  }

  /** Two `per` groups are legal exactly when their concatenation is. */
  lemma PerConcat(xs: seq<TypeTerm>, ys: seq<TypeTerm>)
    ensures IsPerOfQuantitySpecs(PerOf(xs + ys)) <==>
      IsPerOfQuantitySpecs(PerOf(xs)) && IsPerOfQuantitySpecs(PerOf(ys))
  {
    var zs := xs + ys;
    if IsPerOfQuantitySpecs(PerOf(zs)) {
      forall i | 0 <= i < |xs| ensures IsPerElement(xs[i]) {
        assert zs[i] == xs[i];
      }
      forall i | 0 <= i < |ys| ensures IsPerElement(ys[i]) {
        assert zs[|xs| + i] == ys[i];
      }
    }
    if IsPerOfQuantitySpecs(PerOf(xs)) && IsPerOfQuantitySpecs(PerOf(ys)) {
      forall i | 0 <= i < |zs| ensures IsPerElement(zs[i]) {
        if i < |xs| {
          assert zs[i] == xs[i];
        } else {
          assert zs[i] == ys[i - |xs|];
        }
      }
    }
  }

  /**
   * The shapes of a derived-expression term: a named or dimensionless class, a
   * legal power or a legal `per` group; powers and groups exclude each other and
   * the class shapes.
   */
  lemma DerivedExprShapes(t: TypeTerm)
    ensures IsDerivedQuantitySpecExpr(t) <==>
      (t.ClassType? && (t.inherits.QuantitySpecBase? || t.dimensionlessTrait))
      || IsPowerOfQuantitySpec(t) || IsPerOfQuantitySpecs(t)
    ensures IsPowerOfQuantitySpec(t) ==> !IsNamedQuantitySpec(t) && !IsDimensionless(t) && !IsPerOfQuantitySpecs(t)
    ensures IsPerOfQuantitySpecs(t) ==> !IsNamedQuantitySpec(t) && !IsDimensionless(t)
    ensures !IsDerivedQuantitySpecExpr(QuantitySpecSpecialization(None))
    ensures !IsDerivedQuantitySpecExpr(DerivedQuantitySpecOf([]))
  {
  }

  /** A quantity spec is a named spec or a `derived_quantity_spec` specialization, nothing else. */
  lemma QuantitySpecShapes(t: TypeTerm)
    ensures IsQuantitySpec(t) <==>
      (t.ClassType? && t.inherits.QuantitySpecBase?) || t.DerivedQuantitySpecOf?
    ensures t.PowerOf? || t.PerOf? || t.QuantitySpecSpecialization? ==> !IsQuantitySpec(t)
    ensures t.ClassType? && t.inherits.NoQuantitySpecBase? ==> !IsQuantitySpec(t)
  {
  }

  // ---------------------------------------------------------------------------
  // The normal form a legal term denotes

  /** The spec of a named or dimensionless class: its own name, or the dimensionless identity. */
  function AtomSpec(t: TypeTerm): (q: Spec)
    requires IsNamedQuantitySpec(t) || IsDimensionless(t)
    ensures IsDimensionless(t) <==> q == Dimensionless
  {
    if IsDimensionless(t) then Dimensionless else Named(t.name)
  }

  /** The spec of a `per` element: an atom, or an atom raised to the power's exponent. */
  function ElementSpec(t: TypeTerm): Spec
    requires IsPerElement(t)
  {
    if t.PowerOf? then Pow(AtomSpec(t.factor), t.exponent) else AtomSpec(t)
  }

  /** The product of the elements of a `per` group. */
  function ElementsProduct(es: seq<TypeTerm>): Spec
    requires forall i :: 0 <= i < |es| ==> IsPerElement(es[i])
  {
    if es == [] then Dimensionless else Mul(ElementSpec(es[0]), ElementsProduct(es[1..]))
  }

  /** The spec of a derived-expression term; a `per` group stands for the reciprocal of its product. */
  function ExprSpec(t: TypeTerm): Spec
    requires IsDerivedQuantitySpecExpr(t)
  {
    if t.PerOf? then Div(Dimensionless, ElementsProduct(t.elements)) else ElementSpec(t)
  }

  /** The product of the arguments of a `derived_quantity_spec`. */
  function ExpressionsProduct(es: seq<TypeTerm>): Spec
    requires forall i :: 0 <= i < |es| ==> IsDerivedQuantitySpecExpr(es[i])
  {
    if es == [] then Dimensionless else Mul(ExprSpec(es[0]), ExpressionsProduct(es[1..]))
  }

  /**
   * The normal form denoted by a term: defined for derived-expression terms and
   * for `derived_quantity_spec` specializations whose arguments are such terms.
   */
  function Normalize(t: TypeTerm): (r: Option<Spec>)
    ensures r.Some? <==> IsDerivedQuantitySpecExpr(t) || IsFormedDerivedQuantitySpec(t)
    ensures IsNamedQuantitySpec(t) && !IsDimensionless(t) ==> r == Some(Named(t.name))
    ensures IsDimensionless(t) ==> r == Some(Dimensionless)
  {
    if IsDerivedQuantitySpecExpr(t) then Some(ExprSpec(t))
    else if IsFormedDerivedQuantitySpec(t) then Some(ExpressionsProduct(t.expressions))
    else None
  }

  /** Every quantity spec that can be formed denotes a normal form. */
  lemma QuantitySpecsNormalize(t: TypeTerm)
    requires IsQuantitySpec(t)
    requires t.DerivedQuantitySpecOf? ==> IsFormedDerivedQuantitySpec(t)
    ensures Normalize(t).Some?
  {
  }

  /** A `per` group denotes the reciprocal of the product of its elements' specs. */
  lemma {:induction false} PerIsReciprocal(es: seq<TypeTerm>)
    requires IsPerOfQuantitySpecs(PerOf(es))
    ensures Normalize(PerOf(es)) == Some(Div(Dimensionless, ElementsProduct(es)))
    ensures Normalize(DerivedQuantitySpecOf([PerOf(es)])) == Some(Div(Dimensionless, ElementsProduct(es)))
  {
    var p := PerOf(es);
    var r := Div(Dimensionless, ElementsProduct(es));
    assert IsDerivedQuantitySpecExpr(p) && ExprSpec(p) == r;
    var d := DerivedQuantitySpecOf([p]);
    assert IsFormedDerivedQuantitySpec(d) && !IsDerivedQuantitySpecExpr(d);
    assert d.expressions[1..] == [];
    assert ExpressionsProduct(d.expressions) == Mul(r, Dimensionless);
    MulIdentity(r);
  }

  /** One `power<N, e>` term per kind of `q`, `N` a named class for that kind. */
  ghost function RenderFactors(q: Spec): (es: seq<TypeTerm>)
    ensures forall i :: 0 <= i < |es| ==> IsPowerOfQuantitySpec(es[i])
    decreases |q|
  {
    if q == map[] then []
    else
      var k :| k in q;
      assert |q - {k}| < |q| by {
        assert (q - {k}).Keys == q.Keys - {k};
      }
      [PowerOf(ClassType(k, QuantitySpecBase(None), false), q[k])] + RenderFactors(q - {k})
  }

  /** A normal form written back as a `derived_quantity_spec` of powers of named specs. */
  ghost function Render(q: Spec): (t: TypeTerm)
    ensures IsQuantitySpec(t) && IsFormedDerivedQuantitySpec(t)
  {
    DerivedQuantitySpecOf(RenderFactors(q))
  }

  /**
   * Every normal form is denoted by a legal quantity spec, and normalising that
   * term gives the normal form back: normalisation is a fixed point on normal forms.
   */
  lemma RenderNormalizes(q: Spec)
    ensures Normalize(Render(q)) == Some(q)
  {
    RenderFactorsProduct(q);
  }

  lemma {:induction false} RenderFactorsProduct(q: Spec)
    ensures forall i :: 0 <= i < |RenderFactors(q)| ==> IsDerivedQuantitySpecExpr(RenderFactors(q)[i])
    ensures ExpressionsProduct(RenderFactors(q)) == q
    decreases |q|
  {
    if q != map[] {
      var k :| k in q && RenderFactors(q) ==
        [PowerOf(ClassType(k, QuantitySpecBase(None), false), q[k])] + RenderFactors(q - {k});
      var rest: Spec := q - {k};
      assert |rest| < |q| by {
        assert rest.Keys == q.Keys - {k};
      }
      RenderFactorsProduct(rest);
      var es := RenderFactors(q);
      assert es[1..] == RenderFactors(rest);
      assert ExprSpec(es[0]) == Pow(Named(k), q[k]);
      SplitOffKind(q, k);
    }
  }

  /** A normal form is the power of one of its kinds times the rest of it. */
  lemma SplitOffKind(q: Spec, k: Kind)
    requires k in q
    ensures Mul(Pow(Named(k), q[k]), q - {k}) == q
  {
    var head, rest: Spec := Pow(Named(k), q[k]), q - {k};
    forall j ensures Exp(Mul(head, rest), j) == Exp(q, j) {
      if j == k {
        assert Exp(head, j) == q[k];
      } else {
        assert Exp(head, j) == 0.0;
      }
    }
    Extensionality(Mul(head, rest), q);
  }
}
