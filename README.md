# Atom economy of reaction SMILES routes

This project models the core of `rxnSMILES4AtomEco.py` and proves properties of the model. The program computes the atom economy of one reaction, or of a chain of reactions, written in reaction-SMILES notation (`reactants>agents>products`, one reaction per line). The atom economy is the mass of the final products as a percentage of the mass of every reactant charged to the route.

The model has three parts:

- **Coefficient tokenizer** (`CoefficientExtractor`). `parse_smiles_with_coefficients` turns one side of a reaction (`{2}C=CC.O=O`) into ordered `(identifier, coefficient)` pairs.
  - The source runs `findall` with the regular expression `(\{(\d*\.?\d+)\})?([^{}.]+)`. Here that expression is an explicit scanner with the same leftmost, greedy and backtracking behaviour: `MatchAt` and `FindAll`.
  - The nested loop that turns matches into pairs is the method `ParseSmilesWithCoefficients`. It is proved equal to the specification function `Tokenize`.
- **Step parsing and multi-step accumulation** (`ReactionStepParser`, `MultiStepAccumulator`).
  - A line is a step when `split('>')` gives three parts.
  - Each step's reactants are filtered against the product identifiers of earlier steps, by exact string comparison, and then appended to the overall reactant list.
  - The products of the last line that parses are the route's output.
  - `Accumulate` is the loop's state as a fold over line prefixes. `AccumulateIsReference` proves it equal to an independent definition in terms of the parsed steps.
- **Atom-economy ratio** (`AtomEconomyCalculator`). `calculate_atom_economy` on its numeric path (`printout=False`, as `get_atom_economy` calls it) is the method `CalculateAtomEconomy`, which is proved equal to the function `AtomEconomyOf`. `formula_atom_economy` is modelled too.
  - Molecular weights come from a parameter `mass: string -> real`, which stands in for the cheminformatics toolkit.
  - The result is an `Outcome`, one of three:
    - `Percent(value)`;
    - `NoReactants`: the source's `None` when the reactant mass is zero;
    - `UnboundProducts`: the `NameError` the source raises at line 115 when no line parsed, because `product_smiles_list` was never bound.

`Text.Split` models Python's `str.split` with a one-character separator, including empty pieces. `Fixtures` works through the repository's three example reactions and some tokenizer edge cases with fixed molecular weights.

Behaviour of the code at its edges, which the model keeps:

- A malformed coefficient prefix raises no error.
  - `{abc}X` gives `("abc", 1.0), ("X", 1.0)`, and `{1a}y` gives `("1a", 1.0), ("y", 1.0)`: see `Fixtures.NonNumericBraces`.
  - `{2}.X` gives `("2", 1.0), ("X", 1.0)`: see `Fixtures.DanglingBraces`.
  - `{1.}X` gives `("1", 1.0), ("X", 1.0)`: a number cannot end with its dot. See `Fixtures.TrailingDot`.
  - The tokenizer never fails, so the `except ValueError` branch of the loop cannot be reached and is not modelled.
- A coefficient can be zero. `{0}C>>C` charges no reactant mass and gives `NoReactants`: see `Fixtures.ZeroCoefficient`.
- When no line parses at all, the result is the unbound-name error (`UnboundProducts`). It is not the zero-reactant-mass case. See `AtomEconomyCalculator.UnboundExactlyWhenNoStep`.
- The intermediate filter compares identifiers as plain strings, with no canonicalisation.

## Model

| member | source | states |
|---|---|---|
| Text.Split | rxnSMILES4AtomEco.py:83 | `s.split(sep)` has exactly one more piece than `s` has separators, and no piece contains the separator |
| Text.JoinSplit | rxnSMILES4AtomEco.py:83 | splitting loses nothing: joining the pieces with the separator gives the input back |
| Text.SplitWithoutSeparator | rxnSMILES4AtomEco.py:27 | a text without the separator splits into itself alone (why `smiles.split('.')` on a match is a no-op) |
| Text.SplitAfterPiece | rxnSMILES4AtomEco.py:89 | a separator-free head is the first piece and the tail's pieces follow |
| CoefficientExtractor.MatchAt | rxnSMILES4AtomEco.py:20-21 | a match is well formed, is a prefix of the text, and is greedy (never stops in front of a run character); there is no match exactly when the text is empty or starts neither a run nor a valid braced coefficient followed by a run |
| CoefficientExtractor.MatchAtUnique | rxnSMILES4AtomEco.py:20-21 | the match at a position is unique: any well-formed match that covers a prefix and is greedy is the one the pattern reports there |
| CoefficientExtractor.FindAll | rxnSMILES4AtomEco.py:21 | every match `findall` returns has a non-empty identifier run and, if present, a valid `\d*\.?\d+` coefficient |
| CoefficientExtractor.DecimalShape | rxnSMILES4AtomEco.py:20 | `\d*\.?\d+` accepts a text exactly when it is non-empty, holds only digits and dots, has at most one dot and does not end with one (`.5` yes; `1.`, `1.2.3`, `.` no) |
| CoefficientExtractor.DecimalPositional | rxnSMILES4AtomEco.py:25 | `float(match[1])`: a digit string is worth its integer value, and `ip.fp` is worth the integer written by all its digits divided by 10 to the number of fraction digits (`2.5` is 25 / 10) |
| CoefficientExtractor.DigitsAppend | rxnSMILES4AtomEco.py:25 | digits are read in positional notation, most significant first: `a` followed by `b` is worth `a` × 10^\|b\| + `b` |
| CoefficientExtractor.SingleDigit | rxnSMILES4AtomEco.py:25 | a single digit is a valid coefficient worth that digit |
| CoefficientExtractor.Coefficient | rxnSMILES4AtomEco.py:25 | a match's coefficient is never negative, and is 1.0 when group 2 is empty |
| CoefficientExtractor.Entities | rxnSMILES4AtomEco.py:24-29 | one pair per match, in match order, with the match's identifier and its coefficient (1.0 when group 2 is empty) |
| CoefficientExtractor.ParseSmilesWithCoefficients | rxnSMILES4AtomEco.py:10-31 | the nested loop returns exactly `Tokenize(smiles)`, and every pair has a non-empty identifier free of `.`, `{`, `}` and a coefficient >= 0 |
| CoefficientExtractor.TokenizeMatch | rxnSMILES4AtomEco.py:21-29 | any match the pattern can report at the start of the text (well formed, a prefix, greedy) contributes one pair `(group 3, coefficient)`, and the scan resumes right after the matched text |
| CoefficientExtractor.TokenizeWellFormed | rxnSMILES4AtomEco.py:20-29 | every returned pair has an identifier without `.`, `{`, `}` and a non-negative coefficient |
| CoefficientExtractor.RunPieces | rxnSMILES4AtomEco.py:26-29 | `split('.')` of a match's group 3 is that group alone, so each match yields exactly one pair |
| CoefficientExtractor.TokenizeRun | rxnSMILES4AtomEco.py:20-29 | an identifier with no prefix gives one pair with coefficient 1.0, and scanning resumes right after it |
| CoefficientExtractor.TokenizeBraced | rxnSMILES4AtomEco.py:20-29 | `{d}run` gives one pair `(run, float(d))`; the coefficient binds only to the identifier right after it |
| CoefficientExtractor.TokenizeSkip | rxnSMILES4AtomEco.py:21 | a character at which no match starts is skipped and contributes nothing |
| CoefficientExtractor.DefaultCoefficient | rxnSMILES4AtomEco.py:25 | `{1}X` and `X` parse identically: the default coefficient is 1.0 |
| CoefficientExtractor.BracelessSide | rxnSMILES4AtomEco.py:20-29 | a side without braces parses to its non-empty `.`-separated pieces, in order, each with coefficient 1.0 (empty pieces as in `A..B` are dropped) |
| CoefficientExtractor.TokenizeIdentifier | rxnSMILES4AtomEco.py:20-29 | a bare identifier parses to itself with coefficient 1.0 |
| CoefficientExtractor.MatchAtBraced | rxnSMILES4AtomEco.py:20 | at `{d}run` the optional group takes part: group 2 is `d` and group 3 is `run` |
| CoefficientExtractor.BracesAroundNonNumber | rxnSMILES4AtomEco.py:20 | `{x}` around an identifier `x` (no `.`) that is not all digits (`{abc}`, `{1a}`) opens no coefficient group |
| CoefficientExtractor.BracesWithoutNumber | rxnSMILES4AtomEco.py:20 | `{` not followed by a digit or a dot opens no coefficient group |
| ReactionStepParser.ParseStep | rxnSMILES4AtomEco.py:89-99 | a line is a step exactly when it holds exactly two `>` (`split('>')` gives three parts) |
| ReactionStepParser.ParseStepOfLine | rxnSMILES4AtomEco.py:89-99 | `r>a>p` with no `>` inside the parts parses to the tokenized reactant side, the agents verbatim and the tokenized product side |
| ReactionStepParser.ParseSimpleStep | rxnSMILES4AtomEco.py:89-99 | one bare reactant and one bare product give one pair each with coefficient 1.0 |
| MultiStepAccumulator.Ids | rxnSMILES4AtomEco.py:102 | `[p[0] for p in overall_products]`: same length, identifier by identifier |
| MultiStepAccumulator.Admit | rxnSMILES4AtomEco.py:102 | a reactant is kept exactly when it is one of the step's reactants and its identifier is not in the history |
| MultiStepAccumulator.AdmitAppend | rxnSMILES4AtomEco.py:102 | the filter keeps the input order: filtering a concatenation filters each part in place |
| MultiStepAccumulator.AdmitKeepsDuplicates | rxnSMILES4AtomEco.py:102 | the filter keeps each admitted reactant as many times as it occurs |
| MultiStepAccumulator.AdmitAll | rxnSMILES4AtomEco.py:102 | a filter that matches nothing keeps the whole list in order |
| MultiStepAccumulator.AccumulateIsReference | rxnSMILES4AtomEco.py:88-108 | the loop state after a prefix of the lines (`Accumulate`, one `AddStep` per parsed line) is the reference: reactants = in-order concatenation of each parsed step's admitted reactants, history = all parsed products, terminal = last parsed step's products |
| MultiStepAccumulator.AccumulateGrows | rxnSMILES4AtomEco.py:88-108 | more lines only extend the loop state: the reactant and history lists of a prefix are prefixes of the later ones, and once a line has parsed the products stay bound |
| MultiStepAccumulator.IntermediateExclusion | rxnSMILES4AtomEco.py:102-108 | a reactant of step j is charged exactly when no earlier step has a product with its identifier; step j's own products do not filter it |
| MultiStepAccumulator.IdsOfAllProducts | rxnSMILES4AtomEco.py:102 | an identifier is in the filter history exactly when some earlier step produced it |
| MultiStepAccumulator.SkipUnparsedLine | rxnSMILES4AtomEco.py:89-93 | a line that does not parse changes neither the reactants, the history nor the terminal products, wherever it stands |
| MultiStepAccumulator.NoParsedLine | rxnSMILES4AtomEco.py:88-115 | `product_smiles_list` stays unbound exactly when no line parses |
| MultiStepAccumulator.TerminalIsLastParsedLine | rxnSMILES4AtomEco.py:88-115 | the terminal products are the product list of the last line that parses, never a union |
| MultiStepAccumulator.OneLine | rxnSMILES4AtomEco.py:102-108 | for a single parsed line the reactant list is that line's full reactant list and its products are the output |
| AtomEconomyCalculator.TotalMassAppend | rxnSMILES4AtomEco.py:44-45 | the mass sum of a concatenation is the sum of the masses of its parts |
| AtomEconomyCalculator.RouteReactantMass | rxnSMILES4AtomEco.py:102-119 | the reactant mass of the whole route is the sum over parsed steps of the mass of the reactants each step charges |
| AtomEconomyCalculator.TotalMassNonNegative | rxnSMILES4AtomEco.py:44-45 | non-negative weights and coefficients give a non-negative mass sum |
| AtomEconomyCalculator.FormulaAtomEconomy | rxnSMILES4AtomEco.py:33-47 | the percentage times the reactant mass is 100 times the product mass |
| AtomEconomyCalculator.CalculateAtomEconomy | rxnSMILES4AtomEco.py:83-127 | the loop and the final computation give exactly `AtomEconomyOf` of the input |
| AtomEconomyCalculator.RouteRatio | rxnSMILES4AtomEco.py:83-127 | `AtomEconomyOf` (through `Economy`) gives a percentage exactly when some line parses and the reactants charged over all parsed steps weigh something; the percentage is then `formula_atom_economy` of those reactants and the last parsed step's products |
| AtomEconomyCalculator.UnboundExactlyWhenNoStep | rxnSMILES4AtomEco.py:88-115 | the NameError outcome happens exactly when no line of the route parses |
| AtomEconomyCalculator.NoReactantsExactlyWhenZeroMass | rxnSMILES4AtomEco.py:118-124 | `None` exactly when some step parsed and the admitted reactants of all steps weigh 0 |
| AtomEconomyCalculator.OutcomeOfParsedSteps | rxnSMILES4AtomEco.py:83-127 | the outcome depends only on the parsed steps: their admitted reactants and the last step's products |
| AtomEconomyCalculator.EconomyNonNegative | rxnSMILES4AtomEco.py:44-46 | non-negative weights and coefficients give a non-negative percentage |
| AtomEconomyCalculator.PercentNonNegative | rxnSMILES4AtomEco.py:83-127 | with non-negative weights, the percentage of any route is non-negative |
| AtomEconomyCalculator.AccumulatedCoefficients | rxnSMILES4AtomEco.py:98-108 | every coefficient the loop collects is non-negative |
| AtomEconomyCalculator.OneLineRoute | rxnSMILES4AtomEco.py:83-127 | a one-line route has the outcome of that line's step alone |
| AtomEconomyCalculator.EconomyOfSingles | rxnSMILES4AtomEco.py:44-46 | one reactant and one product with coefficient 1.0: mass(product) / mass(reactant) × 100 |
| AtomEconomyCalculator.SingleStepRatio | rxnSMILES4AtomEco.py:83-127 | the line `r>a>p` with bare identifiers gives mass(p) / mass(r) × 100 |
| AtomEconomyCalculator.Isomerization | rxnSMILES4AtomEco.py:118-127 | a reactant and a product of equal weight give exactly 100 |
| Fixtures.PropeneSide | PDFs/test.py:8 | `{2}C=CC.O=O` gives `[("C=CC", 2.0), ("O=O", 1.0)]` |
| Fixtures.CoefficientThenBare | rxnSMILES4AtomEco.py:20-29 | in `{n}x.y` the coefficient binds to `x` only and `y` keeps 1.0 |
| Fixtures.NonNumericBraces | rxnSMILES4AtomEco.py:20-29 | `{x}y` with an identifier `x` (no `.`) that is not all digits raises nothing: both texts become identifiers with coefficient 1.0 |
| Fixtures.NonNumericPrefix | rxnSMILES4AtomEco.py:20-29 | `{abc}X` gives `[("abc", 1.0), ("X", 1.0)]` |
| Fixtures.DigitLedPrefix | rxnSMILES4AtomEco.py:20-29 | `{1a}y` gives `[("1a", 1.0), ("y", 1.0)]` |
| Fixtures.FractionalCoefficient | rxnSMILES4AtomEco.py:20-29 | `{2.5}X` gives `[("X", 2.5)]` |
| Fixtures.TwoDigitCoefficient | rxnSMILES4AtomEco.py:20-29 | `{10}X` gives `[("X", 10.0)]` |
| Fixtures.DanglingBraces | rxnSMILES4AtomEco.py:20-29 | in `{n}.y` the coefficient has no identifier to bind to, so the digit becomes an identifier |
| Fixtures.TrailingDotBraces | rxnSMILES4AtomEco.py:20-29 | in `{n.}y` the number cannot end with its dot, so the braces open no group: `n` and `y` become identifiers with 1.0 |
| Fixtures.TrailingDot | rxnSMILES4AtomEco.py:20-29 | `{1.}X` gives `[("1", 1.0), ("X", 1.0)]` |
| Fixtures.DanglingCoefficient | rxnSMILES4AtomEco.py:20-29 | `{2}.X` gives `[("2", 1.0), ("X", 1.0)]` |
| Fixtures.CumeneRoute | PDFs/test.py:4 | cumene hydroperoxide to acetone: 58.08 / 152.19 × 100 |
| Fixtures.IsopropanolRoute | PDFs/test.py:6 | isopropanol to acetone: 58.08 / 60.10 × 100 |
| Fixtures.BalancedRoute | rxnSMILES4AtomEco.py:83-127 | `{n}x.y>a>{n}z` with balanced weights gives 100 |
| Fixtures.PropeneRoute | PDFs/test.py:8 | propene oxidation `{2}C=CC.O=O>Pd/Cu>{2}CC(C)=O` gives 100 |
| Fixtures.ZeroCoefficientRoute | rxnSMILES4AtomEco.py:118-124 | a zero coefficient on the only reactant gives `None`, whatever the weights |
| Fixtures.ZeroCoefficient | rxnSMILES4AtomEco.py:118-124 | `{0}C>>C` gives `None` |
| Fixtures.IntermediateRoute | rxnSMILES4AtomEco.py:102-115 | in `x>a>y` then `y.w>b>z` the intermediate `y` is not charged again: reactants `[x, w]`, output `[z]` |
| Fixtures.TwoStepIntermediate | rxnSMILES4AtomEco.py:102-115 | isopropanol to acetone, then acetone to its hydrate: only isopropanol and water are charged |
| Fixtures.NoWellFormedLine | rxnSMILES4AtomEco.py:88-115 | `CC>C` followed by `C`: neither line parses, so the result is the unbound-name error |

## Left out

- The cheminformatics toolkit is not modelled: `Chem.MolFromSmiles`, `Descriptors.MolWt`, `Chem.MolToSmiles` and `CalcMolFormula`. Weights are the `mass` parameter. An identifier the toolkit cannot read, for which `MolFromSmiles` returns `None` and `MolWt` then fails, is not modelled.
- `RDLogger.DisableLog` (line 8) is not modelled. It only changes global logging.
- `print_molecule_info`, the printed report on the `printout=True` path, `atom_economy` and `main` with its argument parsing (lines 49-70, 130-135, 151-182) are not modelled. They are output and command-line plumbing. On the `printout=True` path `calculate_atom_economy` returns `None` even after a successful computation. Only the numeric path is modelled.
- The error messages printed for skipped lines and for a zero reactant mass are not modelled.
- AtomEconomyCalculator.CalculateAtomEconomy does not apply the final `round(atom_economy, 2)` (line 137) or the `:.1f` formatting. The ratio is an exact real.
- Floating point in general is not modelled: sums and quotients are exact reals, so rounding, overflow and NaN are not captured. A coefficient is the exact value of its decimal text.
- `\d` matches ASCII digits only. Python's `\d` also matches other Unicode decimal digits, and `float` accepts them.
- The `except ValueError` branch (lines 109-111) is not modelled. The tokenizer never raises, so nothing in the modelled loop can reach it.
- PDFs/test.py only prints a dictionary. Its three reaction strings are used as worked examples in `Fixtures`.
