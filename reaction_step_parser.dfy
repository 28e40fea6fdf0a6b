/**
  One line of reaction SMILES, `reactants>agents>products`: split on `>`, and when there are
  exactly three parts, tokenize the reactant and product sides. The agents stay raw text.
 */
module ReactionStepParser {
  import opened Wrappers
  import opened Text
  import opened CoefficientExtractor

  /** A parsed reaction step. */
  datatype Step = Step(reactants: seq<Entity>, agents: string, products: seq<Entity>)

  /**
    A line is a step exactly when `split('>')` gives three parts, that is when it holds
    exactly two `>`; any other line is skipped.
   */
  function ParseStep(line: string): (r: Option<Step>)
    ensures r.Some? <==> Count(line, '>') == 2
  {
    var parts := Split(line, '>');
    if |parts| != 3 then None
    else Some(Step(Tokenize(parts[0]), parts[1], Tokenize(parts[2])))
  }

  /** Writing a step out as `reactants>agents>products` and parsing it gives the three sides back. */
  lemma ParseStepOfLine(reactants: string, agents: string, products: string)
    requires '>' !in reactants && '>' !in agents && '>' !in products
    ensures ParseStep(reactants + ">" + agents + ">" + products)
         == Some(Step(Tokenize(reactants), agents, Tokenize(products)))
  {
    var line := reactants + ">" + agents + ">" + products;
    assert line == reactants + ['>'] + (agents + ['>'] + products);
    SplitAfterPiece(reactants, agents + ['>'] + products, '>');
    SplitAfterPiece(agents, products, '>');
    SplitWithoutSeparator(products, '>');
    assert Split(line, '>') == [reactants, agents, products];
  }

  /** A line with one bare reactant and one bare product parses to one pair each, coefficient 1.0. */
  lemma ParseSimpleStep(reactant: string, agents: string, product: string)
    requires IsIdentifier(reactant) && IsIdentifier(product)
    requires '>' !in reactant && '>' !in agents && '>' !in product
    ensures ParseStep(reactant + ">" + agents + ">" + product)
         == Some(Step([Entity(reactant, 1.0)], agents, [Entity(product, 1.0)]))
  {
    ParseStepOfLine(reactant, agents, product);
    TokenizeIdentifier(reactant);
    TokenizeIdentifier(product);
  }
}
