/**
  Worked examples: the three reactions of the repository's pathway table (cumene
  hydroperoxide decomposition, isopropanol dehydrogenation, propene oxidation), the
  tokenizer's handling of malformed coefficient prefixes, and a two-step route with an
  intermediate. Weights are fixed constants, as the toolkit would report them. Each example
  is an instance of a lemma stated for all identifiers of its shape. The `...Text` lemmas
  rewrite a literal as the concatenation of its pieces, so that the general lemma applies;
  the verifier does not split a string literal at its separators unaided.
 */
module Fixtures {
  import opened Wrappers
  import opened Text
  import opened CoefficientExtractor
  import opened ReactionStepParser
  import opened MultiStepAccumulator
  import opened AtomEconomyCalculator

  /** Molecular weights (g/mol) of the species in the examples; any other identifier weighs 0. */
  function Weight(smiles: string): real
  {
    if smiles == "CC(C)(OO)c1ccccc1" then 152.19
    else if smiles == "CC(C)=O" then 58.08
    else if smiles == "CC(C)O" then 60.10
    else if smiles == "C=CC" then 42.08
    else if smiles == "O=O" then 32.00
    else 0.0
  }

  // ---------------------------------------------------------------- the tokenizer

  /** A character that neither starts a run nor opens braces is skipped. */
  lemma SkipChar(c: char, rest: string)
    requires !IsRunChar(c) && c != '{'
    ensures Tokenize([c] + rest) == Tokenize(rest)
  {
    var s := [c] + rest;
    assert BracedCoefficient(s).None?;
    TokenizeSkip(s);
    assert s[1..] == rest;
  }

  /** `{n}x.y`: the coefficient binds to `x` only; `y` keeps the default. */
  lemma CoefficientThenBare(n: char, x: string, y: string)
    requires IsDigit(n) && IsIdentifier(x) && IsIdentifier(y)
    ensures Tokenize("{" + [n] + "}" + x + "." + y) == [Entity(x, DigitValue(n) as real), Entity(y, 1.0)]
  {
    SingleDigit(n);
    TokenizeBraced([n], x, "." + y);
    assert "{" + [n] + "}" + x + "." + y == "{" + [n] + "}" + x + ("." + y);
    SkipChar('.', y);
    TokenizeIdentifier(y);
  }

  /** The propene side of the pathway table: `{2}C=CC.O=O`. */
  lemma PropeneSide()
    ensures Tokenize("{2}C=CC.O=O") == [Entity("C=CC", 2.0), Entity("O=O", 1.0)]
  {
    PropeneSideText();
    PropeneSidePieces();
  }

  /** The example side written as the pieces `Tokenize`'s general lemmas are stated over. */
  lemma PropeneSideText()
    ensures "{2}C=CC.O=O" == "{" + ['2'] + "}" + "C=CC" + "." + "O=O"
  {
  }

  lemma PropeneSidePieces()
    ensures Tokenize("{" + ['2'] + "}" + "C=CC" + "." + "O=O") == [Entity("C=CC", 2.0), Entity("O=O", 1.0)]
  {
    assert IsDigit('2') && DigitValue('2') == 2;
    assert IsIdentifier("C=CC") && IsIdentifier("O=O");
    CoefficientThenBare('2', "C=CC", "O=O");
  }

  /**
    `{x}y` where `x` is not a number (an identifier holds no dot, so that is: not all digits):
    no coefficient, both texts become identifiers.
   */
  lemma NonNumericBraces(x: string, y: string)
    requires IsIdentifier(x) && IsIdentifier(y) && !AllDigits(x)
    ensures Tokenize("{" + x + "}" + y) == [Entity(x, 1.0), Entity(y, 1.0)]
  {
    var rest := x + ("}" + y);
    var s := "{" + rest;
    assert "{" + x + "}" + y == s;
    BracesAroundNonNumber(x, y);
    TokenizeSkip(s);
    assert s[1..] == rest;
    RunThenBrace(x, y);
    TokenizeIdentifier(y);
  }

  /** `{1a}y`: a text that starts with a digit but is no number is an identifier too. */
  lemma DigitLedPrefix()
    ensures Tokenize("{1a}y") == [Entity("1a", 1.0), Entity("y", 1.0)]
  {
    assert !IsDigit("1a"[1]);
    NonNumericBraces("1a", "y");
    assert "{1a}y" == "{" + "1a" + "}" + "y";
  }

  /** `{d}z`: a coefficient and one identifier give one pair worth `float(d)`. */
  lemma BracedOnly(d: string, z: string)
    requires IsDecimal(d) && IsIdentifier(z)
    ensures Tokenize("{" + d + "}" + z) == [Entity(z, DecimalValue(d))]
  {
    assert "{" + d + "}" + z == "{" + d + "}" + z + "";
    TokenizeBraced(d, z, "");
    assert Tokenize("") == [];
  }

  /** `2.5` is worth 25 / 10. */
  lemma TwoPointFive()
    ensures IsDecimal("2.5") && DecimalValue("2.5") == 2.5
  {
    DecimalPositional("2", "5");
    assert "2" + "5" == "25" && "2" + "." + "5" == "2.5";
    assert DigitsValue("25") == DigitsValue("2") * 10 + 5;
    assert DigitsValue("2") == 2;
  }

  /** `10` is worth ten: the first digit is the most significant. */
  lemma Ten()
    ensures IsDecimal("10") && DecimalValue("10") == 10.0
  {
    IntegerText("10");
    assert DigitsValue("10") == DigitsValue("1") * 10 + 0;
    assert DigitsValue("1") == 1;
  }

  /** `{2.5}X`: a fractional coefficient. */
  lemma FractionalCoefficient()
    ensures Tokenize("{2.5}X") == [Entity("X", 2.5)]
  {
    assert "{2.5}X" == "{" + "2.5" + "}" + "X";
    FractionalPieces();
  }

  lemma FractionalPieces()
    ensures Tokenize("{" + "2.5" + "}" + "X") == [Entity("X", 2.5)]
  {
    TwoPointFive();
    assert IsIdentifier("X");
    BracedOnly("2.5", "X");
  }

  /** `{10}X`: a coefficient of two digits. */
  lemma TwoDigitCoefficient()
    ensures Tokenize("{10}X") == [Entity("X", 10.0)]
  {
    assert "{10}X" == "{" + "10" + "}" + "X";
    TwoDigitPieces();
  }

  lemma TwoDigitPieces()
    ensures Tokenize("{" + "10" + "}" + "X") == [Entity("X", 10.0)]
  {
    Ten();
    assert IsIdentifier("X");
    BracedOnly("10", "X");
  }

  /** `x}y`: the run `x` stops at `}`, which is then skipped. */
  lemma RunThenBrace(x: string, y: string)
    requires IsIdentifier(x)
    ensures Tokenize(x + ("}" + y)) == [Entity(x, 1.0)] + Tokenize(y)
  {
    TokenizeRun(x, "}" + y);
    SkipChar('}', y);
  }

  /** `{` not followed by a number opens no coefficient, so it is skipped. */
  lemma SkipOpenBrace(rest: string)
    requires |rest| > 0 && !(IsDigit(rest[0]) || rest[0] == '.')
    ensures Tokenize("{" + rest) == Tokenize(rest)
  {
    var s := "{" + rest;
    assert s[1] == rest[0];
    BracesWithoutNumber(s);
    TokenizeSkip(s);
    assert s[1..] == rest;
  }

  lemma NonNumericPrefix()
    ensures Tokenize("{abc}X") == [Entity("abc", 1.0), Entity("X", 1.0)]
  {
    assert !IsDigit("abc"[0]);
    NonNumericBraces("abc", "X");
    assert "{abc}X" == "{" + "abc" + "}" + "X";
  }

  /**
    `{n}.y`: the coefficient has nothing to bind to, so the braces are skipped and the digit
    becomes an identifier of its own.
   */
  lemma DanglingBraces(n: char, y: string)
    requires IsDigit(n) && IsIdentifier(y)
    ensures Tokenize("{" + [n] + "}." + y) == [Entity([n], 1.0), Entity(y, 1.0)]
  {
    assert "{" + [n] + "}." + y == "{" + [n] + "}" + ("." + y);
    SkipDanglingDigit(n, "." + y);
    SkipChar('.', y);
    TokenizeIdentifier(y);
  }

  /** `{n}` followed by no identifier: `{` and `}` are skipped, and `n` is read as an identifier. */
  lemma SkipDanglingDigit(n: char, tail: string)
    requires IsDigit(n) && (tail == [] || !IsRunChar(tail[0]))
    ensures Tokenize("{" + [n] + "}" + tail) == [Entity([n], 1.0)] + Tokenize(tail)
  {
    SingleDigit(n);
    SkipDanglingBraces([n], tail);
    ReadDigit(n, tail);
  }

  /** `{d}` followed by no identifier: the braced group cannot match, so `{` is skipped. */
  lemma SkipDanglingBraces(d: string, tail: string)
    requires IsDecimal(d) && (tail == [] || !IsRunChar(tail[0]))
    ensures Tokenize("{" + d + "}" + tail) == Tokenize(d + "}" + tail)
  {
    var s := "{" + d + "}" + tail;
    assert s[0] == '{' && s[1..] == d + "}" + tail;
    DanglingBracesNoMatch(d, tail);
    TokenizeSkip(s);
  }

  lemma DanglingBracesNoMatch(d: string, tail: string)
    requires IsDecimal(d) && (tail == [] || !IsRunChar(tail[0]))
    ensures !BracedStartsMatch("{" + d + "}" + tail)
  {
    var s := "{" + d + "}" + tail;
    BracedOf(d, tail);
    assert s[|d| + 2..] == tail;
    assert RunLength(tail) == 0;
  }

  /** A lone digit before `}` is an identifier of its own. */
  lemma ReadDigit(n: char, tail: string)
    requires IsDigit(n)
    ensures Tokenize([n] + "}" + tail) == [Entity([n], 1.0)] + Tokenize(tail)
  {
    assert [n] + "}" + tail == [n] + ("}" + tail);
    TokenizeRun([n], "}" + tail);
    SkipChar('}', tail);
  }

  lemma DanglingCoefficient()
    ensures Tokenize("{2}.X") == [Entity("2", 1.0), Entity("X", 1.0)]
  {
    DanglingBraces('2', "X");
    assert "{2}.X" == "{" + ['2'] + "}." + "X";
  }

  /**
    `{n.}y`: a number cannot end with its dot, so the braces open no group; `n` becomes an
    identifier of its own, the dot and `}` are skipped, and `y` keeps the default.
   */
  lemma TrailingDotBraces(n: char, y: string)
    requires IsDigit(n) && IsIdentifier(y)
    ensures Tokenize("{" + [n] + ".}" + y) == [Entity([n], 1.0), Entity(y, 1.0)]
  {
    var s := "{" + [n] + ".}" + y;
    TrailingDotNoGroup(n, y);
    TokenizeSkip(s);
    assert s[1..] == [n] + ".}" + y;
    DigitBeforeDot(n, y);
  }

  /** `n.` is not a number, so `{n.}` opens no coefficient group. */
  lemma TrailingDotNoGroup(n: char, y: string)
    requires IsDigit(n)
    ensures BracedCoefficient("{" + [n] + ".}" + y).None?
  {
    var s := "{" + [n] + ".}" + y;
    var d := [n] + ".";
    DecimalShape(d);
    assert d[1] == '.';
    assert s[1..] == d + "}" + y;
    NumberLengthOf(d, y);
    assert s[1..3] == d;
  }

  /** After the skipped `{`: the digit is an identifier, and `.` and `}` are skipped. */
  lemma DigitBeforeDot(n: char, y: string)
    requires IsDigit(n) && IsIdentifier(y)
    ensures Tokenize([n] + ".}" + y) == [Entity([n], 1.0), Entity(y, 1.0)]
  {
    assert [n] + ".}" + y == [n] + (".}" + y);
    TokenizeRun([n], ".}" + y);
    DotBraceThen(y);
  }

  lemma DotBraceThen(y: string)
    requires IsIdentifier(y)
    ensures Tokenize(".}" + y) == [Entity(y, 1.0)]
  {
    assert ".}" + y == ['.'] + (['}'] + y);
    SkipChar('.', ['}'] + y);
    SkipChar('}', y);
    TokenizeIdentifier(y);
  }

  lemma TrailingDot()
    ensures Tokenize("{1.}X") == [Entity("1", 1.0), Entity("X", 1.0)]
  {
    TrailingDotBraces('1', "X");
    assert "{1.}X" == "{" + ['1'] + ".}" + "X";
  }

  // ---------------------------------------------------------------- single-step routes

  /** The cumene line as reactants, `>`, agents, `>`, products, the shape `ParseStepOfLine` takes. */
  lemma CumeneText()
    ensures "CC(C)(OO)c1ccccc1>acid>CC(C)=O" == "CC(C)(OO)c1ccccc1" + ">" + "acid" + ">" + "CC(C)=O"
  {
  }

  lemma CumenePieces()
    ensures AtomEconomyOf("CC(C)(OO)c1ccccc1" + ">" + "acid" + ">" + "CC(C)=O", Weight) == Percent(58.08 / 152.19 * 100.0)
  {
    assert IsIdentifier("CC(C)(OO)c1ccccc1") && IsIdentifier("CC(C)=O");
    assert '>' !in "CC(C)(OO)c1ccccc1" && '>' !in "acid" && '>' !in "CC(C)=O";
    assert '\n' !in "CC(C)(OO)c1ccccc1" && '\n' !in "acid" && '\n' !in "CC(C)=O";
    assert Weight("CC(C)(OO)c1ccccc1") == 152.19 && Weight("CC(C)=O") == 58.08;
    SingleStepRatio("CC(C)(OO)c1ccccc1", "acid", "CC(C)=O", Weight);
  }

  /** Cumene hydroperoxide to acetone: 58.08 / 152.19 x 100, about 38.2%. */
  lemma CumeneRoute()
    ensures AtomEconomyOf("CC(C)(OO)c1ccccc1>acid>CC(C)=O", Weight) == Percent(58.08 / 152.19 * 100.0)
  {
    CumeneText();
    CumenePieces();
  }

  /** The isopropanol line as reactants, `>`, agents, `>`, products, the shape `ParseStepOfLine` takes. */
  lemma IsopropanolText()
    ensures "CC(C)O>Cu>CC(C)=O" == "CC(C)O" + ">" + "Cu" + ">" + "CC(C)=O"
  {
  }

  lemma IsopropanolPieces()
    ensures AtomEconomyOf("CC(C)O" + ">" + "Cu" + ">" + "CC(C)=O", Weight) == Percent(58.08 / 60.10 * 100.0)
  {
    assert IsIdentifier("CC(C)O") && IsIdentifier("CC(C)=O");
    assert '>' !in "CC(C)O" && '>' !in "Cu" && '>' !in "CC(C)=O";
    assert '\n' !in "CC(C)O" && '\n' !in "Cu" && '\n' !in "CC(C)=O";
    assert Weight("CC(C)O") == 60.10 && Weight("CC(C)=O") == 58.08;
    SingleStepRatio("CC(C)O", "Cu", "CC(C)=O", Weight);
  }

  /** Isopropanol to acetone: 58.08 / 60.10 x 100, about 96.6%. */
  lemma IsopropanolRoute()
    ensures AtomEconomyOf("CC(C)O>Cu>CC(C)=O", Weight) == Percent(58.08 / 60.10 * 100.0)
  {
    IsopropanolText();
    IsopropanolPieces();
  }

  /** `{n}z`: one pair, with coefficient n. */
  lemma CoefficientOnly(n: char, z: string)
    requires IsDigit(n) && IsIdentifier(z)
    ensures Tokenize("{" + [n] + "}" + z) == [Entity(z, DigitValue(n) as real)]
  {
    SingleDigit(n);
    assert "{" + [n] + "}" + z == "{" + [n] + "}" + z + "";
    TokenizeBraced([n], z, "");
    assert Tokenize("") == [];
  }

  /** `{n}x.y>a>{n}z` parses to n of `x` and one `y` giving n of `z`. */
  lemma BalancedStep(n: char, x: string, y: string, a: string, z: string)
    requires IsDigit(n) && IsIdentifier(x) && IsIdentifier(y) && IsIdentifier(z)
    requires '>' !in x && '>' !in y && '>' !in a && '>' !in z
    ensures var c := DigitValue(n) as real;
      ParseStep("{" + [n] + "}" + x + "." + y + ">" + a + ">" + "{" + [n] + "}" + z)
        == Some(Step([Entity(x, c), Entity(y, 1.0)], a, [Entity(z, c)]))
  {
    var left, right := "{" + [n] + "}" + x + "." + y, "{" + [n] + "}" + z;
    assert "{" + [n] + "}" + x + "." + y + ">" + a + ">" + "{" + [n] + "}" + z == left + ">" + a + ">" + right;
    assert '>' !in left && '>' !in right;
    ParseStepOfLine(left, a, right);
    CoefficientThenBare(n, x, y);
    CoefficientOnly(n, z);
  }

  /** Reactants and products of equal total weight: 100%. */
  lemma BalancedEconomy(acc: Accumulation, mass: Mass)
    requires acc.terminal.Some?
    requires TotalMass(acc.reactants, mass) == TotalMass(acc.terminal.value, mass) != 0.0
    ensures Economy(acc, mass) == Percent(100.0)
  {
    var r, p := TotalMass(acc.reactants, mass), TotalMass(acc.terminal.value, mass);
    assert FormulaAtomEconomy(acc.reactants, acc.terminal.value, mass) == p / r * 100.0;
    assert p / r == 1.0;
  }

  lemma TwoPairsMass(x: string, c: real, y: string, mass: Mass)
    ensures TotalMass([Entity(x, c), Entity(y, 1.0)], mass) == mass(x) * c + mass(y)
    ensures TotalMass([Entity(x, c)], mass) == mass(x) * c
  {
    var two := [Entity(x, c), Entity(y, 1.0)];
    assert two[1..] == [Entity(y, 1.0)];
    assert two[1..][1..] == [];
    assert TotalMass([Entity(y, 1.0)], mass) == mass(y) * 1.0 + TotalMass([], mass);
    assert [Entity(x, c)][1..] == [];
  }

  /** `{n}x.y` against `{n}z` with equal weights on both sides: 100%. */
  lemma BalancedPairs(x: string, c: real, y: string, z: string, mass: Mass)
    requires mass(x) * c + mass(y) == mass(z) * c != 0.0
    ensures var ps := [Entity(z, c)];
      Economy(Accumulation([Entity(x, c), Entity(y, 1.0)], ps, Some(ps)), mass) == Percent(100.0)
  {
    TwoPairsMass(x, c, y, mass);
    TwoPairsMass(z, c, y, mass);
    var ps := [Entity(z, c)];
    BalancedEconomy(Accumulation([Entity(x, c), Entity(y, 1.0)], ps, Some(ps)), mass);
  }

  /** `{n}x.y>a>{n}z` is one line when none of its parts holds a newline. */
  lemma BalancedText(n: char, x: string, y: string, a: string, z: string)
    requires IsDigit(n)
    requires '\n' !in x && '\n' !in y && '\n' !in a && '\n' !in z
    ensures '\n' !in "{" + [n] + "}" + x + "." + y + ">" + a + ">" + "{" + [n] + "}" + z
  {
    var left, right := "{" + [n] + "}" + x + "." + y, "{" + [n] + "}" + z;
    assert '\n' !in left && '\n' !in right;
    assert '\n' !in left + ">" + a + ">" + right;
    assert left + ">" + a + ">" + right == "{" + [n] + "}" + x + "." + y + ">" + a + ">" + "{" + [n] + "}" + z;
  }

  /** A single line that parses to a balanced step: 100%. */
  lemma BalancedLine(line: string, x: string, y: string, a: string, z: string, c: real, mass: Mass)
    requires mass(x) * c + mass(y) == mass(z) * c != 0.0
    requires '\n' !in line
    requires ParseStep(line) == Some(Step([Entity(x, c), Entity(y, 1.0)], a, [Entity(z, c)]))
    ensures AtomEconomyOf(line, mass) == Percent(100.0)
  {
    var st := Step([Entity(x, c), Entity(y, 1.0)], a, [Entity(z, c)]);
    OneLineRoute(line, st, mass);
    BalancedPairs(x, c, y, z, mass);
  }

  /**
    `{n}x.y>a>{n}z`: n of `x` and one `y` give n of `z`. When the weights balance, every
    reactant atom ends in the product.
   */
  lemma BalancedRoute(n: char, x: string, y: string, a: string, z: string, mass: Mass, c: real)
    requires IsDigit(n) && IsIdentifier(x) && IsIdentifier(y) && IsIdentifier(z)
    requires '>' !in x && '>' !in y && '>' !in a && '>' !in z
    requires '\n' !in x && '\n' !in y && '\n' !in a && '\n' !in z
    requires c == DigitValue(n) as real
    requires mass(x) * c + mass(y) == mass(z) * c != 0.0
    ensures AtomEconomyOf("{" + [n] + "}" + x + "." + y + ">" + a + ">" + "{" + [n] + "}" + z, mass)
         == Percent(100.0)
  {
    BalancedText(n, x, y, a, z);
    BalancedStep(n, x, y, a, z);
    BalancedLine("{" + [n] + "}" + x + "." + y + ">" + a + ">" + "{" + [n] + "}" + z, x, y, a, z, c, mass);
  }

  /** The species and the agents of the propene route are well-formed, single-line identifiers. */
  lemma PropeneSpecies()
    ensures IsIdentifier("C=CC") && IsIdentifier("O=O") && IsIdentifier("CC(C)=O")
    ensures '>' !in "C=CC" && '>' !in "O=O" && '>' !in "Pd/Cu" && '>' !in "CC(C)=O"
    ensures '\n' !in "C=CC" && '\n' !in "O=O" && '\n' !in "Pd/Cu" && '\n' !in "CC(C)=O"
  {
  }

  /** The propene line, piece by piece. */
  lemma PropeneText()
    ensures "{2}C=CC.O=O>Pd/Cu>{2}CC(C)=O"
         == "{" + ['2'] + "}" + "C=CC" + "." + "O=O" + ">" + "Pd/Cu" + ">" + "{" + ['2'] + "}" + "CC(C)=O"
  {
  }

  /** Propene oxidation, 2 C3H6 + O2 -> 2 acetone: 2 x 42.08 + 32.00 = 2 x 58.08, so 100%. */
  lemma PropeneRoute()
    ensures AtomEconomyOf("{2}C=CC.O=O>Pd/Cu>{2}CC(C)=O", Weight) == Percent(100.0)
  {
    PropeneText();
    PropenePieces();
  }

  lemma PropenePieces()
    ensures AtomEconomyOf("{" + ['2'] + "}" + "C=CC" + "." + "O=O" + ">" + "Pd/Cu" + ">" + "{" + ['2'] + "}" + "CC(C)=O", Weight)
         == Percent(100.0)
  {
    PropeneSpecies();
    assert Weight("C=CC") == 42.08 && Weight("O=O") == 32.00 && Weight("CC(C)=O") == 58.08;
    BalancedRoute('2', "C=CC", "O=O", "Pd/Cu", "CC(C)=O", Weight, 2.0);
  }

  /** `{n}x>a>z`: n of `x` give one `z`. */
  lemma CoefficientStep(n: char, x: string, a: string, z: string)
    requires IsDigit(n) && IsIdentifier(x) && IsIdentifier(z)
    requires '>' !in x && '>' !in a && '>' !in z
    ensures ParseStep("{" + [n] + "}" + x + ">" + a + ">" + z)
         == Some(Step([Entity(x, DigitValue(n) as real)], a, [Entity(z, 1.0)]))
  {
    var left := "{" + [n] + "}" + x;
    assert '>' !in left;
    ParseStepOfLine(left, a, z);
    CoefficientOnly(n, x);
    TokenizeIdentifier(z);
  }

  /** A zero coefficient makes the charged mass zero: no value, whatever the weights. */
  lemma ZeroCoefficientRoute(x: string, z: string, mass: Mass)
    requires IsIdentifier(x) && IsIdentifier(z)
    requires '>' !in x && '>' !in z && '\n' !in x && '\n' !in z
    ensures AtomEconomyOf("{" + ['0'] + "}" + x + ">" + "" + ">" + z, mass) == NoReactants
  {
    var line := "{" + ['0'] + "}" + x + ">" + "" + ">" + z;
    assert '\n' !in line;
    assert DigitValue('0') as real == 0.0;
    CoefficientStep('0', x, "", z);
    OneLineRoute(line, Step([Entity(x, 0.0)], "", [Entity(z, 1.0)]), mass);
    TwoPairsMass(x, 0.0, z, mass);
  }

  /** `{0}C>>C` as braced digit, run, `>`, empty agents, `>`, product, for the general lemmas. */
  lemma ZeroCoefficientText()
    ensures "{0}C>>C" == "{" + ['0'] + "}" + "C" + ">" + "" + ">" + "C"
  {
  }

  lemma ZeroCoefficientPieces(mass: Mass)
    ensures AtomEconomyOf("{" + ['0'] + "}" + "C" + ">" + "" + ">" + "C", mass) == NoReactants
  {
    assert IsIdentifier("C") && '>' !in "C" && '\n' !in "C";
    ZeroCoefficientRoute("C", "C", mass);
  }

  /** `{0}C>>C`: the only reactant is charged zero times. */
  lemma ZeroCoefficient(mass: Mass)
    ensures AtomEconomyOf("{0}C>>C", mass) == NoReactants
  {
    ZeroCoefficientText();
    ZeroCoefficientPieces(mass);
  }

  // ---------------------------------------------------------------- multi-step routes

  lemma SplitTwoLines(first: string, second: string)
    requires '\n' !in first && '\n' !in second
    ensures Split(first + "\n" + second, '\n') == [first, second]
  {
    assert first + "\n" + second == first + ['\n'] + second;
    SplitAfterPiece(first, second, '\n');
    SplitWithoutSeparator(second, '\n');
  }

  /** `y.w`: two pairs, each with the default coefficient. */
  lemma TwoBare(y: string, w: string)
    requires IsIdentifier(y) && IsIdentifier(w)
    ensures Tokenize(y + "." + w) == [Entity(y, 1.0), Entity(w, 1.0)]
  {
    assert y + "." + w == y + ("." + w);
    TokenizeRun(y, "." + w);
    SkipChar('.', w);
    TokenizeIdentifier(w);
  }

  /** `y.w>b>z`: two bare reactants and one bare product. */
  lemma TwoReactantStep(y: string, w: string, b: string, z: string)
    requires IsIdentifier(y) && IsIdentifier(w) && IsIdentifier(z)
    requires '>' !in y && '>' !in w && '>' !in b && '>' !in z
    ensures ParseStep(y + "." + w + ">" + b + ">" + z) == Some(Step([Entity(y, 1.0), Entity(w, 1.0)], b, [Entity(z, 1.0)]))
  {
    var left := y + "." + w;
    assert '>' !in left;
    ParseStepOfLine(left, b, z);
    TwoBare(y, w);
    TokenizeIdentifier(z);
  }

  /** Two parsed lines: the second step is filtered by the first step's products. */
  lemma TwoSteps(first: string, second: string, st1: Step, st2: Step)
    requires ParseStep(first) == Some(st1) && ParseStep(second) == Some(st2)
    ensures Accumulate([first, second]) == AddStep(AddStep(Start, st1), st2)
  {
    var lines := [first, second];
    assert lines[..1] == [first] && lines[1] == second;
    assert [first][..0] == [] && [first][0] == first;
    assert Accumulate([first]) == AddStep(Start, st1);
  }

  /** Against the history `[y]`, the pair `y.w` keeps only `w`. */
  lemma AdmitAfterIntermediate(y: string, w: string)
    requires w != y
    ensures Admit([Entity(y, 1.0), Entity(w, 1.0)], [y]) == [Entity(w, 1.0)]
  {
    var pair := [Entity(y, 1.0), Entity(w, 1.0)];
    assert pair[1..] == [Entity(w, 1.0)] && pair[1..][1..] == [];
    assert w !in [y];
    assert Admit(pair[1..], [y]) == [Entity(w, 1.0)] + Admit([], [y]);
  }

  /** With no history, the single reactant `x` is kept. */
  lemma AdmitFirst(x: string)
    ensures Admit([Entity(x, 1.0)], []) == [Entity(x, 1.0)]
  {
    assert [Entity(x, 1.0)][1..] == [];
  }

  /** The accumulation of the steps `x>a>y` and `y.w>b>z`. */
  lemma IntermediateAccumulation(x: string, a: string, y: string, w: string, b: string, z: string)
    requires w != y
    ensures var acc := AddStep(AddStep(Start, Step([Entity(x, 1.0)], a, [Entity(y, 1.0)])),
                               Step([Entity(y, 1.0), Entity(w, 1.0)], b, [Entity(z, 1.0)]));
      acc.reactants == [Entity(x, 1.0), Entity(w, 1.0)] && acc.terminal == Some([Entity(z, 1.0)])
  {
    AdmitFirst(x);
    assert Ids([]) == [];
    var first := AddStep(Start, Step([Entity(x, 1.0)], a, [Entity(y, 1.0)]));
    assert first.reactants == [Entity(x, 1.0)] && first.products == [Entity(y, 1.0)];
    assert Ids([Entity(y, 1.0)]) == [y];
    AdmitAfterIntermediate(y, w);
  }

  /**
    `x>a>y` then `y.w>b>z`: the intermediate `y` is not charged again in the second step;
    only `x` and `w` are, and `z` is the output.
   */
  lemma IntermediateRoute(x: string, a: string, y: string, w: string, b: string, z: string)
    requires IsIdentifier(x) && IsIdentifier(y) && IsIdentifier(w) && IsIdentifier(z)
    requires '>' !in x && '>' !in a && '>' !in y && '>' !in w && '>' !in b && '>' !in z
    requires '\n' !in x && '\n' !in a && '\n' !in y && '\n' !in w && '\n' !in b && '\n' !in z
    requires w != y
    ensures var first: string, second: string := x + ">" + a + ">" + y, y + "." + w + ">" + b + ">" + z;
      var acc := Accumulate(Split(first + "\n" + second, '\n'));
      acc.reactants == [Entity(x, 1.0), Entity(w, 1.0)] && acc.terminal == Some([Entity(z, 1.0)])
  {
    var first: string, second: string := x + ">" + a + ">" + y, y + "." + w + ">" + b + ">" + z;
    assert '\n' !in first && '\n' !in second;
    SplitTwoLines(first, second);
    ParseSimpleStep(x, a, y);
    TwoReactantStep(y, w, b, z);
    var st1 := Step([Entity(x, 1.0)], a, [Entity(y, 1.0)]);
    var st2 := Step([Entity(y, 1.0), Entity(w, 1.0)], b, [Entity(z, 1.0)]);
    TwoSteps(first, second, st1, st2);
    IntermediateAccumulation(x, a, y, w, b, z);
  }

  /** The hydration route's lines, piece by piece. */
  lemma HydrationText()
    ensures "CC(C)O>Cu>CC(C)=O\nCC(C)=O.O>acid>CC(C)(O)O"
         == ("CC(C)O" + ">" + "Cu" + ">" + "CC(C)=O") + "\n" + ("CC(C)=O" + "." + "O" + ">" + "acid" + ">" + "CC(C)(O)O")
  {
  }

  /** The species and agents of the hydration route are single-line identifiers. */
  lemma HydrationSpecies()
    ensures IsIdentifier("CC(C)O") && IsIdentifier("CC(C)=O") && IsIdentifier("O") && IsIdentifier("CC(C)(O)O")
    ensures '>' !in "CC(C)O" && '>' !in "Cu" && '>' !in "CC(C)=O" && '>' !in "O" && '>' !in "acid" && '>' !in "CC(C)(O)O"
    ensures '\n' !in "CC(C)O" && '\n' !in "Cu" && '\n' !in "CC(C)=O" && '\n' !in "O" && '\n' !in "acid"
    ensures '\n' !in "CC(C)(O)O" && "O" != "CC(C)=O"
  {
  }

  lemma HydrationPieces()
    ensures var acc := Accumulate(Split(("CC(C)O" + ">" + "Cu" + ">" + "CC(C)=O") + "\n"
                                        + ("CC(C)=O" + "." + "O" + ">" + "acid" + ">" + "CC(C)(O)O"), '\n'));
      acc.reactants == [Entity("CC(C)O", 1.0), Entity("O", 1.0)] &&
      acc.terminal == Some([Entity("CC(C)(O)O", 1.0)])
  {
    HydrationSpecies();
    IntermediateRoute("CC(C)O", "Cu", "CC(C)=O", "O", "acid", "CC(C)(O)O");
  }

  /** Isopropanol to acetone, then acetone to its hydrate: only isopropanol and water are charged. */
  lemma TwoStepIntermediate()
    ensures var acc := Accumulate(Split("CC(C)O>Cu>CC(C)=O\nCC(C)=O.O>acid>CC(C)(O)O", '\n'));
      acc.reactants == [Entity("CC(C)O", 1.0), Entity("O", 1.0)] &&
      acc.terminal == Some([Entity("CC(C)(O)O", 1.0)])
  {
    HydrationText();
    HydrationPieces();
  }

  /** A route in which no line has two `>` binds no products: the unbound-name error. */
  lemma NoWellFormedLine(mass: Mass)
    ensures AtomEconomyOf("CC>C\nC", mass) == UnboundProducts
  {
    SplitTwoLines("CC>C", "C");
    assert "CC>C\nC" == "CC>C" + "\n" + "C";
    assert Count("CC>C", '>') == 1;
    UnboundExactlyWhenNoStep("CC>C\nC", mass);
  }
}
