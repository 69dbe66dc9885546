# mp-units quantity-spec and reference algebra in Dafny

This project models the core of mp-units' quantity-spec and reference algebra:

- which types count as quantity specifications (named, base, dimensionless,
  `power`, `per`, `derived_quantity_spec`);
- how a unit that is not explicitly paired with a quantity spec yields one
  (the associated quantity);
- the `reference<Q, U>` pair with its projections, equality, product,
  quotient, interconvertibility, `common_reference` and value binding.

The C++ computes all of this at compile time on types. Here the types are
datatype values and the computations are total functions, with lemmas for
the properties the library relies on.

Files, one module each:

- `wrappers.dfy` (`Wrappers`): `Option` and `Result`.
- `spec_algebra.dfy` (`SpecAlgebra`): a quantity spec in normal form is a
  finite map from a named kind to a nonzero rational exponent (a `real`).
  - Product adds exponents, quotient subtracts them, and power scales them.
  - Equality compares normal forms.
  - The empty map is `dimensionless`.
- `quantity_spec_concepts.dfy` (`QuantitySpecConcepts`): the concepts of
  `quantity_spec_concepts.h` as predicates over a `TypeTerm` datatype, plus
  `Normalize`. `Normalize` gives the normal form a legal term denotes.
- `units.dfy` (`Units`): a unit type is a record of the three members the
  derivation probes: `reference_unit`, the `_num_`/`_den_` type lists and
  `base_quantity`. The module holds the derivation `AssociatedQuantity` and
  its lemmas.
- `references.dfy` (`References`): `reference<Q, U>` and its operations.
  - A bare associated unit (`BareUnit`) may stand wherever a reference is
    accepted.
  - The unit algebra is passed in as a `UnitAlgebra` record of functions.
  - The spec relations defined elsewhere are passed in the same way, as a
    `SpecRelations` record.
  - Every operation takes the `PowerRule` by which a bare unit's spec is
    derived, so both the code as written and the correction (described
    under Findings below) can be stated at the reference level.
- `examples.dfy` (`Examples`): metre, second, kilometre, hour, `km/h` and
  `m²`, and a derived unit whose `_num_` list names metre twice. For each, it
  shows what the derivation makes of it.

## Model

| member | source | states |
|---|---|---|
| `SpecAlgebra.Named` | src/core/include/mp_units/bits/quantity_spec_concepts.h:67-74 | a named kind on its own has exponent one for itself and zero for every other kind |
| `SpecAlgebra.Mul` | src/core/include/mp_units/reference.h:125-129 | the `Q1 * Q2` of a product of references: every kind's exponent is the sum of its exponents in the factors |
| `SpecAlgebra.Div` | src/core/include/mp_units/reference.h:143-147 | the `Q1 / Q2` of a quotient of references: every kind's exponent is the dividend's minus the divisor's |
| `SpecAlgebra.Pow` | src/core/include/mp_units/reference.h:37-41 | raising to a rational power scales every exponent; the corrected power rule uses it |
| `SpecAlgebra.Extensionality` | src/core/include/mp_units/reference.h:113-117 | the `Q1 == Q2` of reference equality: two normal forms are equal exactly when every kind has the same exponent in both |
| `SpecAlgebra.MulCommutes` | src/core/include/mp_units/reference.h:125-129 | the spec product is commutative |
| `SpecAlgebra.MulAssociates` | src/core/include/mp_units/reference.h:43-47 | the spec product is associative, which makes the left fold over a type list well defined up to grouping |
| `SpecAlgebra.MulIdentity` | src/core/include/mp_units/reference.h:43-47 | `dimensionless`, the seed of the fold, is a two-sided identity of the product |
| `SpecAlgebra.DivIdentity` | src/core/include/mp_units/reference.h:54-55 | dividing by `dimensionless` (an empty `_den_` list) changes nothing |
| `SpecAlgebra.DivSelf` | src/core/include/mp_units/reference.h:143-147 | a spec divided by itself is `dimensionless` |
| `SpecAlgebra.MulInverse` | src/core/include/mp_units/reference.h:143-147 | a spec times its reciprocal is `dimensionless` |
| `SpecAlgebra.DivIsMulReciprocal` | src/core/include/mp_units/reference.h:143-147 | division is multiplication by the reciprocal |
| `SpecAlgebra.MulDivCancel` | src/core/include/mp_units/reference.h:143-147 | multiplying and then dividing by the same spec gives back the original |
| `SpecAlgebra.DivSwap` | src/core/include/mp_units/reference.h:54-55 | exchanging dividend and divisor yields the reciprocal |
| `SpecAlgebra.PowZeroOne` | src/core/include/mp_units/reference.h:37-41 | power zero is `dimensionless`, power one is the identity |
| `SpecAlgebra.PowAdd` | src/core/include/mp_units/reference.h:37-41 | powers of one spec multiply by adding exponents |
| `SpecAlgebra.PowSucc` | src/core/include/mp_units/reference.h:37-41 | one more factor raises the power by one |
| `SpecAlgebra.PowFixedPoint` | src/core/include/mp_units/reference.h:37-41 | a spec that is not dimensionless changes under any power other than one |
| `QuantitySpecConcepts.NamedCharacterised` | src/core/include/mp_units/bits/quantity_spec_concepts.h:56-74 | a type is a named quantity spec exactly when it is a class deriving from some `quantity_spec<...>`; the `quantity_spec<...>` specialization derives from itself yet is not named |
| `QuantitySpecConcepts.BaseIsNamed` | src/core/include/mp_units/bits/quantity_spec_concepts.h:84-86 | every base quantity spec is named; base exactly when the inherited `quantity_spec` carries a base dimension |
| `QuantitySpecConcepts.DimensionlessOnlyIfMarked` | src/core/include/mp_units/bits/quantity_spec_concepts.h:90-110 | `is_dimensionless` is false unless specialised, so no `power`, `per`, `derived_quantity_spec` or `quantity_spec<...>` term is dimensionless; a marked class is a derived-expression term and not a `per` group, and if it is not named it is not a quantity spec |
| `QuantitySpecConcepts.PowerLegality` | src/core/include/mp_units/bits/quantity_spec_concepts.h:93-97 | a power term is legal iff its factor is named or dimensionless; powers of powers, of `per` groups, of derived specs or of `quantity_spec<...>` are not |
| `QuantitySpecConcepts.PerLegality` | src/core/include/mp_units/bits/quantity_spec_concepts.h:99-104 | a `per` group is legal iff every element is named, dimensionless or a legal power; the empty group is legal, a group with a nested group is not |
| `QuantitySpecConcepts.PerConcat` | src/core/include/mp_units/bits/quantity_spec_concepts.h:102-104 | the `&&` fold over a group: two groups are legal iff their concatenation is |
| `QuantitySpecConcepts.DerivedExprShapes` | src/core/include/mp_units/bits/quantity_spec_concepts.h:108-110 | a derived-expression term is a named or dimensionless class, a legal power or a legal group; powers and groups exclude each other and the class shapes; neither `quantity_spec<...>` nor `derived_quantity_spec<...>` is one |
| `QuantitySpecConcepts.QuantitySpecShapes` | src/core/include/mp_units/bits/quantity_spec_concepts.h:118-135 | a quantity spec is a named spec or a `derived_quantity_spec` specialization; powers, groups, `quantity_spec<...>` and unrelated classes are not |
| `QuantitySpecConcepts.AtomSpec` | src/core/include/mp_units/bits/quantity_spec_concepts.h:108-110 | a named or dimensionless class denotes `dimensionless` exactly when it is marked dimensionless |
| `QuantitySpecConcepts.Normalize` | src/core/include/mp_units/bits/quantity_spec_concepts.h:108-114 | a term denotes a normal form exactly when it is a derived-expression term or a `derived_quantity_spec` whose arguments meet the template's constraint; a named class denotes itself, a dimensionless one the identity |
| `QuantitySpecConcepts.QuantitySpecsNormalize` | src/core/include/mp_units/bits/quantity_spec_concepts.h:134-135 | every quantity spec that can be formed denotes a normal form |
| `QuantitySpecConcepts.PerIsReciprocal` | src/core/include/mp_units/bits/quantity_spec_concepts.h:99-104 | a legal `per` group, alone or as the only argument of `derived_quantity_spec`, denotes the reciprocal of its elements' product |
| `QuantitySpecConcepts.RenderNormalizes` | src/core/include/mp_units/bits/quantity_spec_concepts.h:113-114 | every normal form is denoted by a legal `derived_quantity_spec` of powers of named specs, and normalising that term gives it back (normalisation is a fixed point on normal forms) |
| `Units.DerivationPriority` | src/core/include/mp_units/reference.h:49-58 | the probe order `reference_unit`, then `_num_`/`_den_`, then `base_quantity`: a unit with `reference_unit` derives the same whatever its fraction and base quantity, a derived unit the same whatever its base quantity, and a unit with neither returns its `base_quantity` |
| `Units.ListQuantityShort` | src/core/include/mp_units/reference.h:43-47 | the empty type list derives to `dimensionless`, a one-element list to its element |
| `Units.ListQuantityAppend` | src/core/include/mp_units/reference.h:43-47 | the fold over a concatenation of type lists is the product of the folds |
| `Units.ListQuantityOrderIrrelevant` | src/core/include/mp_units/reference.h:43-47 | the fold over a type list does not depend on the order of its elements |
| `Units.FractionSwapInverts` | src/core/include/mp_units/reference.h:54-55 | exchanging `_num_` and `_den_` of a derived unit inverts its derived spec |
| `Units.RepeatQuantity` | src/core/include/mp_units/reference.h:43-47 | a type list of `n` copies of a unit derives to the unit's spec raised to `n` |
| `Units.PowerExponentDropped` | src/core/include/mp_units/reference.h:37-41 | as written, `power<U, e>` derives to the spec of `U` for every exponent `e`; consequently `power<U, n>` and `n` copies of `U` disagree whenever `n != 1` and `U`'s spec is not dimensionless |
| `Units.PowerExponentApplied` | src/core/include/mp_units/reference.h:37-41 | corrected: `power<U, Num, Den>` derives to the spec of `U` raised to Num/Den, and `power<U, n>` agrees with `n` copies of `U` |
| `Units.PowerFreeRulesAgree` | src/core/include/mp_units/reference.h:37-58 | only the `power<...>` branch reads an exponent: a unit without `power<...>` elements at any depth derives to the same spec under the as-written and the corrected rule |
| `Units.ListPowerFreeRulesAgree` | src/core/include/mp_units/reference.h:43-47 | a type list of power-free units folds to the same spec under both rules |
| `Units.FactorPowerFreeRulesAgree` | src/core/include/mp_units/reference.h:49-58 | a bare power-free element derives to the same spec under both rules |
| `Examples.ScaledUnitsKeepKind` | src/core/include/mp_units/reference.h:52-53 | kilometre and hour (scaled units, hour through minute) derive to `length` and `time` |
| `Examples.KilometrePerHourIsLengthPerTime` | src/core/include/mp_units/reference.h:49-58 | `km/h` derives to `length / time` |
| `Examples.KilometrePerHourTimesHour` | src/core/include/mp_units/reference.h:131-135 | under either rule, the reference `km/h` stands for, times the bare unit `h`, has spec `length` |
| `Examples.SquareMetreAsWritten` | src/core/include/mp_units/reference.h:37-41 | as written, `m²` (`_num_` = `power<metre, 2>`, the form the unit product `m * m` takes) derives to `length`; that is neither `length²` nor what the derived unit listing metre twice derives to |
| `Examples.SquareMetreCorrected` | src/core/include/mp_units/reference.h:37-41 | with the exponent applied, `m²` derives to `length²`, the same as the derived unit listing metre twice |
| `Examples.MetreTwice` | src/core/include/mp_units/reference.h:43-47 | a derived unit whose `_num_` list names metre twice derives to `length²` under either rule |
| `Examples.SquareMetreReferenceAsWritten` | src/core/include/mp_units/reference.h:62-65 | as written, the bare unit `m²` has spec `length`, while `length[m] * length[m]` has spec `length²`. So `length²[m²] == m²` is false as written and true with the correction |
| `References.Projections` | src/core/include/mp_units/reference.h:62-79 | `get_quantity_spec` and `get_unit` of `reference<Q, U>` are `Q` and `U`; a bare unit's unit is itself and its spec is the one derived under the given power rule |
| `References.Equal` | src/core/include/mp_units/reference.h:113-123 | reference equality holds iff the specs have identical exponents and the units are equal; against a bare unit, its derived spec and the unit itself are compared |
| `References.Multiply` | src/core/include/mp_units/reference.h:125-141 | the product's spec exponents are the sums of the operands' and its unit is `U1 * U2` in operand order; a bare operand contributes its derived spec |
| `References.Divide` | src/core/include/mp_units/reference.h:143-159 | the quotient's spec exponents are the differences and its unit is `U1 / U2` in operand order; a bare operand contributes its derived spec |
| `References.Interconvertible` | src/core/include/mp_units/reference.h:169-185 | interconvertible iff the specs and the units are, reference side first; the (unit, reference) form is the (reference, unit) form with the arguments swapped |
| `References.BareUnitStandsForReference` | src/core/include/mp_units/reference.h:119-179 | `==` and `interconvertible` with the reference first, and `*` and `/` with the bare unit on either side, give the same result for a bare unit as for the pair of its derived spec and itself. Binding (`value * u` is tagged with `u` itself) and `common_reference` over bare units (which returns a unit) do not make this substitution |
| `References.MixedInterconvertibleSymmetric` | src/core/include/mp_units/reference.h:181-185 | the mixed forms of `interconvertible` agree whichever side the bare unit is on |
| `References.InterconvertibleSymmetric` | src/core/include/mp_units/reference.h:169-173 | with symmetric spec and unit relations, reference interconvertibility is symmetric |
| `References.EqualImpliesInterconvertible` | src/core/include/mp_units/reference.h:113-123 | equal references are interconvertible when the spec relation is reflexive and unit equality implies unit interconvertibility |
| `References.DistinctKindsSameUnit` | src/core/include/mp_units/reference.h:113-117 | two distinct named kinds over one unit (`width[m]`, `height[m]`) can be interconvertible yet never equal |
| `References.MultiplySpecCommutes` | src/core/include/mp_units/reference.h:125-141 | the spec of a product does not depend on operand order |
| `References.DivideUndoesMultiply` | src/core/include/mp_units/reference.h:143-159 | dividing a product by one of its operands gives back the other operand's spec, with unit `(U1 * U2) / U2` |
| `References.DivideBySelfIsDimensionless` | src/core/include/mp_units/reference.h:143-159 | a reference divided by itself, or by the unit it was derived from, has the dimensionless spec |
| `References.LockStep` | src/core/include/mp_units/reference.h:131-159 | when the unit product/quotient is the derived unit listing the operands, the reference from unit `u1` times/over `u2` equals the reference the product/quotient unit stands for |
| `References.PowerFreeOperandsAgree` | src/core/include/mp_units/reference.h:62-65 | for a bare unit without `power<...>` elements, `get_quantity_spec`, `==`, `*`, `/` and `interconvertible` give the same result under the as-written and the corrected rule |
| `References.CommonReference` | src/core/include/mp_units/reference.h:198-210 | defined iff both `common_quantity_spec` of the specs and `common_unit` of the units resolve; then it pairs the two results |
| `References.CommonReferenceOfUnits` | src/core/include/mp_units/reference.h:187-196 | over bare units, defined iff `common_unit` resolves to an associated unit; then that unit itself |
| `References.MultiplyByReference` | src/core/include/mp_units/reference.h:161-167 | `value * R` yields a quantity tagged with exactly `R` iff the representation satisfies the character of `R`'s spec, and a character error otherwise; `Quantity * Reference` is rejected with its own error |
| `References.Call` | src/core/include/mp_units/reference.h:103-111 | `R(value)` yields a quantity tagged with exactly `R` iff the representation satisfies the character of `R`'s spec |
| `References.CallAgreesWithMultiply` | src/core/include/mp_units/reference.h:103-111 | calling a reference and multiplying a value by it produce the same quantity or the same error |

## Left out

- The unit algebra is defined outside this component. It covers unit `*`,
  `/`, `==`, `interconvertible`, `common_unit`, magnitudes and prefixes. Here
  it is the `UnitAlgebra` record of functions, so nothing is assumed about it
  unless a lemma states it as a precondition.
  - Its unit product would merge repeated factors (`m * m` into
    `power<metre, 2>`).
  - `References.LockStep` states the agreement of the two algebras only for a
    product that lists its operands as they are.
- Spec interconvertibility, `common_quantity_spec` and a spec's `character`
  are also defined outside this component. They are the `SpecRelations`
  record. Interconvertibility depends on the hierarchy of kinds, which the
  normal form does not carry.
- The normaliser in expression_template.h is not part of this model.
  - `SpecAlgebra` and `Normalize` model its result as an exponent map with
    cancelled zeros, not its ordering of factors.
  - A named spec is kept as an atom and is not expanded into its recipe, so
    `speed` and `length / time` are different normal forms.
- The `quantity` class and its storage of the value are left out. A quantity
  is only the value tagged with its reference. `RepresentationOf<Rep,
  character>` is the `representationOf` predicate parameter.
- The C++ machinery that detects inheritance, and the
  `__cpp_explicit_this_parameter` variants, are left out. The
  `Inheritance` field of a class type records their outcome.
- `is_dimensionless` is modelled as a mark on class types only. A
  specialisation of it for a `power`, `per` or `quantity_spec<...>` type is
  not modelled.
- unit_concepts.h is not part of this model, so `AssociatedUnit` is modelled
  by `HasAssociatedQuantity`. That predicate probes the same members in the
  same order as the derivation.
  - A unit that declares none of the three members has no associated spec
    and is not accepted.
  - The `void` fall-through of the `if constexpr` chain is therefore
    unreachable.
- Variadic `rest...` arguments of `common_reference` are a sequence of length
  at least two.
- Overload resolution between the two `common_reference` overloads is not
  modelled. Each overload is its own function.
- The equality `unit == reference` that C++20 synthesises by reversing the
  arguments is not modelled. `Equal` takes the reference first, as the
  declared overloads do.
- The deleted `Quantity * Reference` overload is modelled as a distinct
  error value. Its diagnostic text is left out.
- Exponents are exact rationals (`real`). Integer and rational exponents are
  not told apart.
- Unit symbols are labels only. Magnitudes of scaled units are not modelled.

## Findings

| source | as written | input that shows it | evidently intended | confidence | as-written member | corrected member |
|---|---|---|---|---|---|---|
| src/core/include/mp_units/reference.h:37-41 | `get_associated_quantity(power<U, Vs...>)` returns the derivation of `U` and ignores the exponents `Vs...` | `m²`, the derived unit whose `_num_` list is `power<metre, 2>` (what `m * m` forms), derives to `length` rather than `length²`; so `length²[m²] == m²` is false (`Examples.SquareMetreAsWritten`, `Examples.SquareMetreReferenceAsWritten`). Every unit with a repeated factor is affected the same way (`m²`, `m/s²`, ...) | the derivation of `U` raised to the power `Vs...`, so that `power<U, n>` derives like `n` copies of `U` | likely; not executed | `Units.PowerExponentDropped` | `Units.PowerExponentApplied` |

Every derivation, and every reference operation, takes a `PowerRule`:
- `ExponentDropped` is reference.h as written.
- `ExponentApplied` is the corrected rule.

The two rules differ only at `power<...>` elements. The `reference_unit`,
`_num_`/`_den_` and `base_quantity` branches of reference.h:49-58 never read
an exponent. `Units.PowerFreeRulesAgree` and
`References.PowerFreeOperandsAgree` prove that, without a `power<...>`
element, both rules give the same results.
