/**
 * Concrete units, built the way the library declares them, and what the
 * derivation makes of them: metre and second are bound to the base
 * quantities `length` and `time`, kilometre and hour are scaled units, and
 * `km/h` and `m²` are derived units.
 */
module Examples {
  import opened Wrappers
  import opened SpecAlgebra
  import opened Units
  import opened References

  const metre := Unit("m", None, None, Some(Named("length")))
  const second := Unit("s", None, None, Some(Named("time")))
  const kilometre := Unit("km", Some(metre), None, None)
  const minute := Unit("min", Some(second), None, None)
  const hour := Unit("h", Some(minute), None, None)
  const kilometrePerHour := DerivedUnit("km/h", [Plain(kilometre)], [Plain(hour)])
  const squareMetre := DerivedUnit("m2", [Power(metre, 2.0)], [])
  /** A derived unit whose `_num_` list names metre twice, without a `power<...>` element. */
  const metreTwice := DerivedUnit("m.m", [Plain(metre), Plain(metre)], [])

  /** A scaled unit has the kind of the unit it scales, through any number of scalings. */
  lemma ScaledUnitsKeepKind(rule: PowerRule)
    ensures HasAssociatedQuantity(kilometre) && HasAssociatedQuantity(hour)
    ensures AssociatedQuantity(kilometre, rule) == Named("length")
    ensures AssociatedQuantity(hour, rule) == Named("time")
  {
  }

  /** `km/h` derives to `length / time`, whichever power rule is used. */
  lemma KilometrePerHourIsLengthPerTime(rule: PowerRule)
    ensures HasAssociatedQuantity(kilometrePerHour)
    ensures AssociatedQuantity(kilometrePerHour, rule) == Div(Named("length"), Named("time"))
  {
    ScaledUnitsKeepKind(rule);
    assert FactorAssociated(Plain(kilometre)) && FactorAssociated(Plain(hour));
    ListQuantityShort([Plain(kilometre)], rule);
    ListQuantityShort([Plain(hour)], rule);
  }

  /**
   * The reference `km/h` stands for, multiplied by the bare unit `h`, has the
   * spec `length`: the time exponents cancel.
   */
  lemma KilometrePerHourTimesHour(ua: UnitAlgebra, rule: PowerRule)
    ensures HasAssociatedQuantity(kilometrePerHour) && HasAssociatedQuantity(hour)
    ensures Multiply(ua, rule, Ref(AsReference(rule, BareUnit(kilometrePerHour))), BareUnit(hour)).spec == Named("length")
  {
    KilometrePerHourIsLengthPerTime(rule);
    ScaledUnitsKeepKind(rule);
    var l, t := Named("length"), Named("time");
    var r := Multiply(ua, rule, Ref(AsReference(rule, BareUnit(kilometrePerHour))), BareUnit(hour));
    forall k ensures Exp(r.spec, k) == Exp(l, k) {
    }
    Extensionality(r.spec, l);
  }

  /**
   * As written, `m²` (the derived unit whose `_num_` list is `power<metre, 2>`,
   * which is also what the unit product `m * m` forms) derives to `length`,
   * not `length²`.
   */
  lemma SquareMetreAsWritten()
    ensures HasAssociatedQuantity(squareMetre)
    ensures AssociatedQuantity(squareMetre, ExponentDropped) == Named("length")
    ensures AssociatedQuantity(squareMetre, ExponentDropped) != Pow(Named("length"), 2.0)
    ensures AssociatedQuantity(squareMetre, ExponentDropped) != AssociatedQuantity(metreTwice, ExponentDropped)
  {
    var rule := ExponentDropped;
    var l := Named("length");
    assert FactorAssociated(Power(metre, 2.0)) && FactorAssociated(Plain(metre));
    ListQuantityShort([Power(metre, 2.0)], rule);
    ListQuantityShort([], rule);
    DivIdentity(l);
    assert Exp(Pow(l, 2.0), "length") == 2.0;
    MetreTwice(rule);
  }

  /** With the exponent applied, `m²` derives to `length²`, the same as the list naming metre twice. */
  lemma SquareMetreCorrected()
    ensures HasAssociatedQuantity(squareMetre)
    ensures AssociatedQuantity(squareMetre, ExponentApplied) == Pow(Named("length"), 2.0)
    ensures AssociatedQuantity(squareMetre, ExponentApplied) == AssociatedQuantity(metreTwice, ExponentApplied)
  {
    var rule := ExponentApplied;
    var l := Named("length");
    assert FactorAssociated(Power(metre, 2.0));
    ListQuantityShort([Power(metre, 2.0)], rule);
    ListQuantityShort([], rule);
    DivIdentity(Pow(l, 2.0));
    MetreTwice(rule);
  }

  /** The `_num_` list naming metre twice derives to `length²` under either rule. */
  lemma MetreTwice(rule: PowerRule)
    ensures HasAssociatedQuantity(metreTwice)
    ensures AssociatedQuantity(metreTwice, rule) == Pow(Named("length"), 2.0)
  {
    var l := Named("length");
    assert FactorAssociated(Plain(metre));
    assert Repeat(metre, 2) == [Plain(metre), Plain(metre)];
    RepeatQuantity(metre, 2, rule);
    ListQuantityShort([], rule);
    DivIdentity(Pow(l, 2.0));
  }

  /**
   * The as-written rule at the reference level: `length[m] * length[m]` has the
   * spec `length²`, yet the bare unit `m²` stands for `length[m²]`, so comparing
   * `length²[m²]` with `m²` fails as written and succeeds with the correction.
   */
  lemma SquareMetreReferenceAsWritten(ua: UnitAlgebra)
    requires ua.equal(squareMetre, squareMetre)
    ensures HasAssociatedQuantity(squareMetre)
    ensures Multiply(ua, ExponentDropped, Ref(Reference(Named("length"), metre)), Ref(Reference(Named("length"), metre))).spec
            == Pow(Named("length"), 2.0)
    ensures GetQuantitySpec(ExponentDropped, BareUnit(squareMetre)) == Named("length")
    ensures !Equal(ua, ExponentDropped, Reference(Pow(Named("length"), 2.0), squareMetre), BareUnit(squareMetre))
    ensures Equal(ua, ExponentApplied, Reference(Pow(Named("length"), 2.0), squareMetre), BareUnit(squareMetre))
  {
    var l := Named("length");
    var r := Multiply(ua, ExponentDropped, Ref(Reference(l, metre)), Ref(Reference(l, metre)));
    forall k ensures Exp(r.spec, k) == Exp(Pow(l, 2.0), k) {
    }
    Extensionality(r.spec, Pow(l, 2.0));
    SquareMetreAsWritten();
    SquareMetreCorrected();
  }
}
