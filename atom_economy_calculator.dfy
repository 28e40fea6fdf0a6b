/**
  `calculate_atom_economy` with the numeric result (the `get_atom_economy` path) and
  `formula_atom_economy`. Molecular weights come from an abstract `mass` function standing in
  for the cheminformatics toolkit; ratios are exact reals.
 */
module AtomEconomyCalculator {
  import opened Wrappers
  import opened Text
  import opened CoefficientExtractor
  import opened ReactionStepParser
  import opened MultiStepAccumulator

  /** Molecular weight of the molecule a SMILES identifier denotes. */
  type Mass = string -> real

  /** `sum(MolWt(mol) * coeff for mol, coeff in es)` */
  function TotalMass(es: seq<Entity>, mass: Mass): real
  {
    if |es| == 0 then 0.0 else mass(es[0].id) * es[0].coefficient + TotalMass(es[1..], mass)
  }

  /** The mass of a concatenation is the sum of the masses of its parts. */
  lemma {:induction false} TotalMassAppend(a: seq<Entity>, b: seq<Entity>, mass: Mass)
    ensures TotalMass(a + b, mass) == TotalMass(a, mass) + TotalMass(b, mass)
    decreases |a|
  {
    if |a| == 0 {
      assert a + b == b;
    } else {
      assert (a + b)[0] == a[0] && (a + b)[1..] == a[1..] + b;
      TotalMassAppend(a[1..], b, mass);
      assert TotalMass(a + b, mass) == mass(a[0].id) * a[0].coefficient + TotalMass(a[1..] + b, mass);
    }
  }

  /** The reactant mass charged step by step: each parsed step adds the mass of what it admits. */
  function ChargedMass(steps: seq<Step>, mass: Mass): real
  {
    if |steps| == 0 then 0.0
    else ChargedMass(steps[..|steps| - 1], mass) + TotalMass(AdmittedAt(steps, |steps| - 1), mass)
  }

  /** The reactant mass of a route is the sum over its parsed steps of the mass each one charges. */
  lemma {:induction false} RouteReactantMass(steps: seq<Step>, mass: Mass)
    ensures TotalMass(AllAdmitted(steps), mass) == ChargedMass(steps, mass)
    decreases |steps|
  {
    if |steps| > 0 {
      var init := steps[..|steps| - 1];
      RouteReactantMass(init, mass);
      TotalMassAppend(AllAdmitted(init), AdmittedAt(steps, |steps| - 1), mass);
    }
  }

  /** Non-negative weights and coefficients give a non-negative total. */
  lemma {:induction false} TotalMassNonNegative(es: seq<Entity>, mass: Mass)
    requires forall id :: mass(id) >= 0.0
    requires forall e :: e in es ==> e.coefficient >= 0.0
    ensures TotalMass(es, mass) >= 0.0
    decreases |es|
  {
    if |es| > 0 {
      assert es[0] in es;
      assert forall e :: e in es[1..] ==> e in es;
      TotalMassNonNegative(es[1..], mass);
    }
  }

  /**
    `formula_atom_economy`: the product mass as a percentage of the reactant mass. Its only
    caller has checked that the reactant mass is not zero.
   */
  function FormulaAtomEconomy(reactants: seq<Entity>, products: seq<Entity>, mass: Mass): (percent: real)
    requires TotalMass(reactants, mass) != 0.0
    ensures percent * TotalMass(reactants, mass) == 100.0 * TotalMass(products, mass)
  {
    (TotalMass(products, mass) / TotalMass(reactants, mass)) * 100.0
  }

  /**
    What `get_atom_economy` gives: a percentage; `None` when the reactant mass is zero
    (`NoReactants`); or the NameError raised when no line parsed, so that
    `product_smiles_list` was never bound (`UnboundProducts`).
   */
  datatype Outcome = Percent(value: real) | NoReactants | UnboundProducts

  /** Lines 114-127: the outcome once the loop has left its state in `acc`. */
  function Economy(acc: Accumulation, mass: Mass): Outcome
  {
    if acc.terminal.None? then UnboundProducts
    else if TotalMass(acc.reactants, mass) == 0.0 then NoReactants
    else Percent(FormulaAtomEconomy(acc.reactants, acc.terminal.value, mass))
  }

  /** The outcome for a newline-separated route. */
  function AtomEconomyOf(reactionsSmiles: string, mass: Mass): Outcome
  {
    Economy(Accumulate(Split(reactionsSmiles, '\n')), mass)
  }

  /**
    `calculate_atom_economy(reactions_smiles, printout=False)` without the final rounding:
    the loop over lines, then the masses and the ratio.
   */
  method CalculateAtomEconomy(reactionsSmiles: string, mass: Mass) returns (outcome: Outcome)
    ensures outcome == AtomEconomyOf(reactionsSmiles, mass)
  {
    var reactions := Split(reactionsSmiles, '\n');
    var overallReactants: seq<Entity> := [];
    var overallProducts: seq<Entity> := [];
    var productList: Option<seq<Entity>> := None;
    var i := 0;
    while i < |reactions|
      invariant 0 <= i <= |reactions|
      invariant Accumulation(overallReactants, overallProducts, productList) == Accumulate(reactions[..i])
    {
      var reactionParts := Split(reactions[i], '>');
      assert reactions[..i + 1][..i] == reactions[..i];
      if |reactionParts| == 3 {
        var reactantList := ParseSmilesWithCoefficients(reactionParts[0]);
        var products := ParseSmilesWithCoefficients(reactionParts[2]);
        var filtered := Admit(reactantList, Ids(overallProducts));
        overallReactants := overallReactants + filtered;
        overallProducts := overallProducts + products;
        productList := Some(products);
      }
      i := i + 1;
    }
    assert reactions[..i] == reactions;
    if productList.None? {
      return UnboundProducts;
    }
    var reactantMass := TotalMass(overallReactants, mass);
    if reactantMass == 0.0 {
      return NoReactants;
    }
    outcome := Percent(FormulaAtomEconomy(overallReactants, productList.value, mass));
  }

  // ---------------------------------------------------------------- properties

  /** The three outcomes of lines 114-127, for any final state of the loop. */
  lemma EconomyCases(acc: Accumulation, mass: Mass)
    ensures Economy(acc, mass).UnboundProducts? <==> acc.terminal.None?
    ensures Economy(acc, mass).NoReactants? <==> acc.terminal.Some? && TotalMass(acc.reactants, mass) == 0.0
    ensures Economy(acc, mass).Percent? ==>
      acc.terminal.Some? &&
      Economy(acc, mass).value * TotalMass(acc.reactants, mass) == 100.0 * TotalMass(acc.terminal.value, mass)
  {
  }

  /**
    A route has a percentage exactly when some line parses and the reactants charged over all
    parsed steps weigh something; the percentage is then `formula_atom_economy` of those
    reactants and the last parsed step's products.
   */
  lemma RouteRatio(reactionsSmiles: string, mass: Mass)
    ensures var steps := ParsedSteps(Split(reactionsSmiles, '\n'));
      AtomEconomyOf(reactionsSmiles, mass).Percent? <==> |steps| > 0 && TotalMass(AllAdmitted(steps), mass) != 0.0
    ensures var steps := ParsedSteps(Split(reactionsSmiles, '\n'));
      AtomEconomyOf(reactionsSmiles, mass).Percent? ==>
        |steps| > 0 && TotalMass(AllAdmitted(steps), mass) != 0.0 &&
        AtomEconomyOf(reactionsSmiles, mass).value
          == FormulaAtomEconomy(AllAdmitted(steps), steps[|steps| - 1].products, mass)
  {
    OutcomeOfParsedSteps(reactionsSmiles, mass);
    StepsRatio(ParsedSteps(Split(reactionsSmiles, '\n')), mass, AtomEconomyOf(reactionsSmiles, mass));
  }

  /** `RouteRatio` for the outcome `o` of the reference state of `steps`. */
  lemma StepsRatio(steps: seq<Step>, mass: Mass, o: Outcome)
    requires o == Economy(Accumulation(AllAdmitted(steps), AllProducts(steps), LastProducts(steps)), mass)
    ensures o.Percent? <==> |steps| > 0 && TotalMass(AllAdmitted(steps), mass) != 0.0
    ensures o.Percent? ==>
      |steps| > 0 && TotalMass(AllAdmitted(steps), mass) != 0.0 &&
      o.value == FormulaAtomEconomy(AllAdmitted(steps), steps[|steps| - 1].products, mass)
  {
    if |steps| > 0 {
      assert LastProducts(steps) == Some(steps[|steps| - 1].products);
    }
  }

  /** The unbound-name error happens exactly when no line of the route parses. */
  lemma UnboundExactlyWhenNoStep(reactionsSmiles: string, mass: Mass)
    ensures AtomEconomyOf(reactionsSmiles, mass).UnboundProducts? <==> NoLineParses(Split(reactionsSmiles, '\n'))
  {
    var lines := Split(reactionsSmiles, '\n');
    EconomyCases(Accumulate(lines), mass);
    NoParsedLine(lines);
  }

  /**
    No value is returned exactly when some line parses and the admitted reactants of all
    parsed steps weigh zero in total.
   */
  lemma NoReactantsExactlyWhenZeroMass(reactionsSmiles: string, mass: Mass)
    ensures var steps := ParsedSteps(Split(reactionsSmiles, '\n'));
      AtomEconomyOf(reactionsSmiles, mass).NoReactants? <==>
        |steps| > 0 && TotalMass(AllAdmitted(steps), mass) == 0.0
  {
    var lines := Split(reactionsSmiles, '\n');
    AccumulateIsReference(lines);
    EconomyCases(Accumulate(lines), mass);
  }

  /**
    The outcome depends on the parsed steps alone, through the reference state: the reactants
    admitted over all parsed steps and the last parsed step's products (see `EconomyCases`
    for what each outcome then means).
   */
  lemma OutcomeOfParsedSteps(reactionsSmiles: string, mass: Mass)
    ensures var steps := ParsedSteps(Split(reactionsSmiles, '\n'));
      AtomEconomyOf(reactionsSmiles, mass)
        == Economy(Accumulation(AllAdmitted(steps), AllProducts(steps), LastProducts(steps)), mass)
  {
    AccumulateIsReference(Split(reactionsSmiles, '\n'));
  }

  /** Non-negative weights and coefficients give a non-negative percentage. */
  lemma EconomyNonNegative(acc: Accumulation, mass: Mass)
    requires forall id :: mass(id) >= 0.0
    requires forall e :: e in acc.reactants ==> e.coefficient >= 0.0
    requires acc.terminal.Some? ==> forall e :: e in acc.terminal.value ==> e.coefficient >= 0.0
    ensures Economy(acc, mass).Percent? ==> Economy(acc, mass).value >= 0.0
  {
    if acc.terminal.Some? && TotalMass(acc.reactants, mass) != 0.0 {
      TotalMassNonNegative(acc.reactants, mass);
      TotalMassNonNegative(acc.terminal.value, mass);
      var r, p := TotalMass(acc.reactants, mass), TotalMass(acc.terminal.value, mass);
      assert r > 0.0 && p >= 0.0;
      assert p / r >= 0.0;
    }
  }

  /** With non-negative weights the percentage of any route is never negative. */
  lemma PercentNonNegative(reactionsSmiles: string, mass: Mass)
    requires forall id :: mass(id) >= 0.0
    ensures AtomEconomyOf(reactionsSmiles, mass).Percent? ==> AtomEconomyOf(reactionsSmiles, mass).value >= 0.0
  {
    var lines := Split(reactionsSmiles, '\n');
    AccumulatedCoefficients(lines);
    EconomyNonNegative(Accumulate(lines), mass);
  }

  /** Every coefficient the fold collects was parsed from a side, so none is negative. */
  lemma {:induction false} AccumulatedCoefficients(lines: seq<string>)
    ensures forall e :: e in Accumulate(lines).reactants ==> e.coefficient >= 0.0
    ensures forall e :: e in Accumulate(lines).products ==> e.coefficient >= 0.0
    ensures Accumulate(lines).terminal.Some? ==>
      forall e :: e in Accumulate(lines).terminal.value ==> e.coefficient >= 0.0
    decreases |lines|
  {
    if |lines| > 0 {
      AccumulatedCoefficients(lines[..|lines| - 1]);
      var line := lines[|lines| - 1];
      var parts := Split(line, '>');
      if |parts| == 3 {
        TokenizeWellFormed(parts[0]);
        TokenizeWellFormed(parts[2]);
      }
    }
  }

  /** A route of one well-formed line: the outcome of that line's step alone. */
  lemma OneLineRoute(line: string, st: Step, mass: Mass)
    requires '\n' !in line && ParseStep(line) == Some(st)
    ensures AtomEconomyOf(line, mass) == Economy(Accumulation(st.reactants, st.products, Some(st.products)), mass)
  {
    SplitWithoutSeparator(line, '\n');
    OneLine(line, st);
  }

  /** One reactant and one product, each with coefficient 1.0: the ratio of their weights. */
  lemma EconomyOfSingles(reactant: string, product: string, mass: Mass)
    requires mass(reactant) != 0.0
    ensures var er, ep := Entity(reactant, 1.0), Entity(product, 1.0);
      Economy(Accumulation([er], [ep], Some([ep])), mass) == Percent(mass(product) / mass(reactant) * 100.0)
  {
    var er, ep := Entity(reactant, 1.0), Entity(product, 1.0);
    assert TotalMass([er], mass) == mass(reactant);
    assert TotalMass([ep], mass) == mass(product);
  }

  /**
    A single step with one reactant and one product and no coefficients: the atom economy
    is mass(product) / mass(reactant) x 100.
   */
  lemma SingleStepRatio(reactant: string, agents: string, product: string, mass: Mass)
    requires IsIdentifier(reactant) && IsIdentifier(product)
    requires '>' !in reactant && '>' !in agents && '>' !in product
    requires '\n' !in reactant && '\n' !in agents && '\n' !in product
    requires mass(reactant) != 0.0
    ensures AtomEconomyOf(reactant + ">" + agents + ">" + product, mass)
         == Percent(mass(product) / mass(reactant) * 100.0)
  {
    var line := reactant + ">" + agents + ">" + product;
    assert '\n' !in line;
    ParseSimpleStep(reactant, agents, product);
    var er, ep := Entity(reactant, 1.0), Entity(product, 1.0);
    OneLineRoute(line, Step([er], agents, [ep]), mass);
    EconomyOfSingles(reactant, product, mass);
  }

  /** A ratio of equal non-zero masses is 100%. */
  lemma HundredPercent(o: Outcome, part: real, whole: real)
    requires part == whole && whole != 0.0
    requires o == Percent(part / whole * 100.0)
    ensures o == Percent(100.0)
  {
  }

  /** An isomerization (reactant and product of equal weight) has an atom economy of 100%. */
  lemma Isomerization(reactant: string, agents: string, product: string, mass: Mass)
    requires IsIdentifier(reactant) && IsIdentifier(product)
    requires '>' !in reactant && '>' !in agents && '>' !in product
    requires '\n' !in reactant && '\n' !in agents && '\n' !in product
    requires mass(reactant) == mass(product) && mass(reactant) != 0.0
    ensures AtomEconomyOf(reactant + ">" + agents + ">" + product, mass) == Percent(100.0)
  {
    SingleStepRatio(reactant, agents, product, mass);
    HundredPercent(AtomEconomyOf(reactant + ">" + agents + ">" + product, mass), mass(product), mass(reactant));
  }
}
