/**
  The coefficient tokenizer: one side of a reaction (`{2}C=CC.O=O`) becomes the ordered list of
  (identifier, coefficient) pairs. The source runs `findall` with the regular expression
  `(\{(\d*\.?\d+)\})?([^{}.]+)`; here that regular expression is an explicit scanner with the same
  leftmost, greedy, backtracking behaviour, and the loop that turns matches into pairs is a method.
 */
module CoefficientExtractor {
  import opened Wrappers
  import opened Text

  /** One species of a reaction side: its SMILES identifier and its stoichiometric coefficient. */
  datatype Entity = Entity(id: string, coefficient: real)

  /**
    One `findall` result: group 2 (the text inside the braces, "" when the optional group did
    not take part) and group 3 (the identifier run).
   */
  datatype Match = Match(coefficientText: string, run: string)

  // ---------------------------------------------------------------- character classes

  /** `\d` */
  predicate IsDigit(ch: char) { '0' <= ch <= '9' }

  /** `[^{}.]` */
  predicate IsRunChar(ch: char) { ch != '{' && ch != '}' && ch != '.' }

  predicate AllDigits(s: string) { forall i :: 0 <= i < |s| ==> IsDigit(s[i]) }

  /** A text that `[^{}.]+` matches whole: a non-empty identifier without `{`, `}` or `.`. */
  predicate IsIdentifier(s: string) { |s| > 0 && forall i :: 0 <= i < |s| ==> IsRunChar(s[i]) }

  /** A text that `\d*\.?\d+` matches whole: digits, then optionally a dot and at least one digit. */
  predicate IsDecimal(d: string)
  {
    var k := IndexOf(d, '.');
    AllDigits(d[..k]) &&
    if k == |d| then k > 0 else k + 1 < |d| && AllDigits(d[k + 1..])
  }

  // ---------------------------------------------------------------- number values

  function DigitValue(ch: char): nat
    requires IsDigit(ch)
  {
    ch as int - '0' as int
  }

  /** The integer a run of decimal digits denotes (leading zeros allowed, as `float` allows them). */
  function DigitsValue(ds: string): nat
    requires AllDigits(ds)
  {
    if |ds| == 0 then 0
    else DigitsValue(ds[..|ds| - 1]) * 10 + DigitValue(ds[|ds| - 1])
  }

  function Pow10(n: nat): (p: nat)
    ensures p >= 1
  {
    if n == 0 then 1 else 10 * Pow10(n - 1)
  }

  /** `float(d)` for a text matching `\d*\.?\d+`, as an exact real. */
  function DecimalValue(d: string): (r: real)
    requires IsDecimal(d)
    ensures r >= 0.0
  {
    var k := IndexOf(d, '.');
    if k == |d| then DigitsValue(d) as real
    else DigitsValue(d[..k]) as real + DigitsValue(d[k + 1..]) as real / Pow10(|d| - k - 1) as real
  }

  // ---------------------------------------------------------------- the regular expression

  /** Length of the longest prefix of `s` that `[^{}.]*` matches. */
  function RunLength(s: string): (n: nat)
    ensures n <= |s|
    ensures forall i :: 0 <= i < n ==> IsRunChar(s[i])
    ensures n < |s| ==> !IsRunChar(s[n])
  {
    if |s| == 0 || !IsRunChar(s[0]) then 0 else 1 + RunLength(s[1..])
  }

  /** Length of the longest prefix of `s` made of digits and dots. */
  function NumberLength(s: string): (n: nat)
    ensures n <= |s|
    ensures forall i :: 0 <= i < n ==> IsDigit(s[i]) || s[i] == '.'
    ensures n < |s| ==> !(IsDigit(s[n]) || s[n] == '.')
  {
    if |s| == 0 || !(IsDigit(s[0]) || s[0] == '.') then 0 else 1 + NumberLength(s[1..])
  }

  /**
    The optional group `\{(\d*\.?\d+)\}` tried at the start of `s`: the text between the braces.
    Only digits and dots can lie between `{` and `}`, so the closing brace must be the first
    character after the longest run of them.
   */
  function BracedCoefficient(s: string): (d: Option<string>)
    ensures d.Some? ==> IsDecimal(d.value) && |d.value| + 2 <= |s|
    ensures d.Some? ==> s[..|d.value| + 2] == "{" + d.value + "}"
  {
    if |s| == 0 || s[0] != '{' then None
    else
      var n := NumberLength(s[1..]);
      if n + 1 < |s| && s[n + 1] == '}' && IsDecimal(s[1..n + 1]) then Some(s[1..n + 1]) else None
  }

  /** The braced coefficient at the start of `s` is followed by at least one run character. */
  predicate BracedStartsMatch(s: string)
  {
    var d := BracedCoefficient(s);
    d.Some? && RunLength(s[|d.value| + 2..]) > 0
  }

  /** A match is what the pattern can produce: a non-empty run, and a valid number if any. */
  predicate WellFormed(m: Match)
  {
    IsIdentifier(m.run) && (m.coefficientText == "" || IsDecimal(m.coefficientText))
  }

  /** The text a match covers. */
  function MatchedText(m: Match): string
  {
    (if m.coefficientText == "" then "" else "{" + m.coefficientText + "}") + m.run
  }

  /**
    `m` is a match the pattern can report at the start of `s`: well formed, covering a prefix
    of `s`, and not stopping in front of another run character (the run is greedy).
   */
  predicate MatchesAt(s: string, m: Match)
  {
    WellFormed(m) && |MatchedText(m)| <= |s| && s[..|MatchedText(m)|] == MatchedText(m) &&
    (|MatchedText(m)| == |s| || !IsRunChar(s[|MatchedText(m)|]))
  }

  /** Some match starts at the beginning of `s`: a run character, or a braced number before one. */
  predicate StartsMatch(s: string)
  {
    |s| > 0 && (IsRunChar(s[0]) || BracedStartsMatch(s))
  }

  /**
    The pattern tried at the start of `s`: first with the braced coefficient, then (after
    backtracking out of the optional group) without it. The run is greedy, so a match never
    stops in front of another run character; and a run character always starts a match.
   */
  function MatchAt(s: string): (r: Option<Match>)
    ensures r.Some? ==> MatchesAt(s, r.value)
    ensures r.None? <==> !StartsMatch(s)
  {
    if |s| == 0 then None
    else
      var braced := BracedCoefficient(s);
      if braced.Some? && RunLength(s[|braced.value| + 2..]) > 0 then
        var k := |braced.value| + 2;
        BracedMatch(s);
        Some(Match(braced.value, s[k..k + RunLength(s[k..])]))
      else if RunLength(s) > 0 then
        BareMatch(s);
        Some(Match("", s[..RunLength(s)]))
      else None
  }

  lemma BracedMatch(s: string)
    requires BracedStartsMatch(s)
    ensures var d := BracedCoefficient(s).value;
      var k := |d| + 2;
      StartsMatch(s) && MatchesAt(s, Match(d, s[k..k + RunLength(s[k..])]))
  {
    var d := BracedCoefficient(s).value;
    var k := |d| + 2;
    var n := RunLength(s[k..]);
    var m := Match(d, s[k..k + n]);
    assert MatchedText(m) == s[..k] + s[k..k + n] == s[..k + n];
    assert k + n == |s| || s[k + n] == s[k..][n];
  }

  lemma BareMatch(s: string)
    requires RunLength(s) > 0
    ensures StartsMatch(s) && MatchesAt(s, Match("", s[..RunLength(s)]))
  {
    var m := Match("", s[..RunLength(s)]);
    assert MatchedText(m) == m.run;
  }

  /** `pattern.findall(s)`: matches tried left to right, skipping one character where none starts. */
  function FindAll(s: string): (ms: seq<Match>)
    ensures forall m :: m in ms ==> WellFormed(m)
    decreases |s|
  {
    if |s| == 0 then []
    else match MatchAt(s)
      case Some(m) => [m] + FindAll(s[|MatchedText(m)|..])
      case None => FindAll(s[1..])
  }

  // ---------------------------------------------------------------- matches to pairs

  /** `float(match[1]) if match[1] else 1.0` */
  function Coefficient(m: Match): (c: real)
    requires WellFormed(m)
    ensures c >= 0.0
    ensures m.coefficientText == "" ==> c == 1.0
  {
    if m.coefficientText != "" then DecimalValue(m.coefficientText) else 1.0
  }

  /** The pairs the loop appends: one per match, in match order. */
  function Entities(ms: seq<Match>): (es: seq<Entity>)
    requires forall m :: m in ms ==> WellFormed(m)
    ensures |es| == |ms|
    ensures forall k :: 0 <= k < |ms| ==> es[k].id == ms[k].run && es[k].coefficient == Coefficient(ms[k])
  {
    if |ms| == 0 then [] else [Entity(ms[0].run, Coefficient(ms[0]))] + Entities(ms[1..])
  }

  /** A list that agrees with `Entities(ms)` pair by pair is `Entities(ms)`. */
  lemma EntitiesOf(ms: seq<Match>, es: seq<Entity>)
    requires forall m :: m in ms ==> WellFormed(m)
    requires |es| == |ms|
    requires forall k :: 0 <= k < |ms| ==> es[k] == Entity(ms[k].run, Coefficient(ms[k]))
    ensures es == Entities(ms)
  {
  }

  /** What `parse_smiles_with_coefficients` returns for `s`. */
  function Tokenize(s: string): seq<Entity>
  {
    Entities(FindAll(s))
  }

  /** Every pair has a non-empty identifier free of `.`, `{` and `}`, and a coefficient >= 0. */
  lemma TokenizeWellFormed(s: string)
    ensures forall e :: e in Tokenize(s) ==> IsIdentifier(e.id) && e.coefficient >= 0.0
  {
    var ms := FindAll(s);
    forall e | e in Tokenize(s) ensures IsIdentifier(e.id) && e.coefficient >= 0.0 {
      var k :| 0 <= k < |ms| && Tokenize(s)[k] == e;
      assert ms[k] in ms;
    }
  }

  /**
    `parse_smiles_with_coefficients`: for each match, the coefficient is read from group 2 and
    every `.`-separated piece of group 3 is appended with it.
   */
  method ParseSmilesWithCoefficients(smiles: string) returns (parsed: seq<Entity>)
    ensures parsed == Tokenize(smiles)
    ensures forall e :: e in parsed ==> IsIdentifier(e.id) && e.coefficient >= 0.0
  {
    var matches := FindAll(smiles);
    parsed := [];
    var i := 0;
    while i < |matches|
      invariant 0 <= i <= |matches|
      invariant |parsed| == i
      invariant forall k :: 0 <= k < i ==> parsed[k] == Entity(matches[k].run, Coefficient(matches[k]))
    {
      var m := matches[i];
      assert m in matches;
      var coefficient := if m.coefficientText != "" then DecimalValue(m.coefficientText) else 1.0;
      var pieces := Split(m.run, '.');
      RunPieces(m);
      ghost var before := parsed;
      var j := 0;
      while j < |pieces|
        invariant 0 <= j <= |pieces|
        invariant |parsed| == |before| + j
        invariant parsed[..|before|] == before
        invariant forall k :: 0 <= k < j ==> parsed[|before| + k] == Entity(pieces[k], coefficient)
      {
        parsed := parsed + [Entity(pieces[j], coefficient)];
        j := j + 1;
      }
      assert parsed[|before| + 0] == Entity(pieces[0], coefficient);
      assert pieces[0] == m.run && coefficient == Coefficient(m);
      i := i + 1;
    }
    EntitiesOf(matches, parsed);
    TokenizeWellFormed(smiles);
  }

  // ---------------------------------------------------------------- properties of the tokenizer

  /** The run of a match holds no `.`, so splitting it on `.` gives the run back whole. */
  lemma RunPieces(m: Match)
    requires WellFormed(m)
    ensures Split(m.run, '.') == [m.run]
  {
    SplitWithoutSeparator(m.run, '.');
  }

  /** The longest run of identifier characters at the start of `run + rest` is `run`. */
  lemma {:induction false} RunLengthOf(run: string, rest: string)
    requires forall i :: 0 <= i < |run| ==> IsRunChar(run[i])
    requires rest == [] || !IsRunChar(rest[0])
    ensures RunLength(run + rest) == |run|
    decreases |run|
  {
    if |run| > 0 {
      assert (run + rest)[1..] == run[1..] + rest;
      RunLengthOf(run[1..], rest);
    }
  }

  /** The longest run of digits and dots at the start of `d + "}" + rest` is `d`. */
  lemma {:induction false} NumberLengthOf(d: string, rest: string)
    requires forall i :: 0 <= i < |d| ==> IsDigit(d[i]) || d[i] == '.'
    ensures NumberLength(d + "}" + rest) == |d|
    decreases |d|
  {
    if |d| > 0 {
      assert (d + "}" + rest)[1..] == d[1..] + "}" + rest;
      NumberLengthOf(d[1..], rest);
    }
  }

  lemma DecimalCharacters(d: string)
    requires IsDecimal(d)
    ensures forall i :: 0 <= i < |d| ==> IsDigit(d[i]) || d[i] == '.'
  {
    var k := IndexOf(d, '.');
    forall i | 0 <= i < |d| ensures IsDigit(d[i]) || d[i] == '.' {
      if i < k {
        assert d[..k][i] == d[i];
      } else if i > k {
        assert d[k + 1..][i - k - 1] == d[i];
      }
    }
  }

  /**
    Any match the pattern can report at the start of `s` contributes one pair, and the scan
    resumes right after the matched text.
   */
  lemma TokenizeMatch(s: string, m: Match)
    requires MatchesAt(s, m)
    ensures Tokenize(s) == [Entity(m.run, Coefficient(m))] + Tokenize(s[|MatchedText(m)|..])
  {
    MatchAtUnique(s, m);
    var rest := FindAll(s[|MatchedText(m)|..]);
    assert FindAll(s) == [m] + rest;
    assert ([m] + rest)[1..] == rest;
  }

  /**
    The match at a position is unique: a well-formed, greedy match covering a prefix of `s` is
    the one the pattern reports there. With `MatchAt`'s ensures, `MatchesAt` characterises
    `MatchAt` in both directions.
   */
  lemma MatchAtUnique(s: string, m: Match)
    requires MatchesAt(s, m)
    ensures MatchAt(s) == Some(m)
  {
    var t := MatchedText(m);
    var rest := s[|t|..];
    assert s == t + rest;
    assert rest == [] || rest[0] == s[|t|];
    if m.coefficientText == "" {
      assert t == m.run;
      MatchAtRun(m.run, rest);
    } else {
      assert s == "{" + m.coefficientText + "}" + m.run + rest;
      MatchAtBraced(m.coefficientText, m.run, rest);
    }
  }

  lemma MatchAtRun(run: string, rest: string)
    requires IsIdentifier(run)
    requires rest == [] || !IsRunChar(rest[0])
    ensures MatchAt(run + rest) == Some(Match("", run))
  {
    var s := run + rest;
    RunLengthOf(run, rest);
    assert s[0] == run[0];
    assert s[..|run|] == run;
  }

  /** A valid number between braces is read as a coefficient, whatever follows. */
  lemma BracedOf(d: string, tail: string)
    requires IsDecimal(d)
    ensures BracedCoefficient("{" + d + "}" + tail) == Some(d)
  {
    var s := "{" + d + "}" + tail;
    DecimalCharacters(d);
    NumberLengthOf(d, tail);
    assert s[1..] == d + "}" + tail;
    assert s[|d| + 1] == '}';
    assert s[1..|d| + 1] == d;
  }

  /**
    The texts `\d*\.?\d+` matches, character by character: non-empty, digits and dots only, at
    most one dot, and no dot at the end. So `.5` is a number, and `1.`, `1.2.3`, `.` are not.
   */
  predicate DecimalShaped(d: string)
  {
    |d| > 0 && d[|d| - 1] != '.' &&
    (forall i :: 0 <= i < |d| ==> IsDigit(d[i]) || d[i] == '.') &&
    (forall i, j :: 0 <= i < j < |d| && d[i] == '.' ==> d[j] != '.')
  }

  lemma DecimalShape(d: string)
    ensures IsDecimal(d) <==> DecimalShaped(d)
  {
    var k := IndexOf(d, '.');
    assert forall i :: k < i < |d| ==> d[i] == d[k + 1..][i - k - 1];
    if IsDecimal(d) {
      DecimalCharacters(d);
      if k == |d| {
        assert d[..k][|d| - 1] == d[|d| - 1];
      }
    }
    if DecimalShaped(d) {
      assert forall i :: 0 <= i < k ==> d[..k][i] == d[i];
    }
  }

  /** A brace not followed by a digit or a dot opens no coefficient. */
  lemma BracesWithoutNumber(s: string)
    requires |s| > 1 && !(IsDigit(s[1]) || s[1] == '.')
    ensures BracedCoefficient(s).None?
  {
    assert NumberLength(s[1..]) == 0;
    assert IndexOf(s[1..1], '.') == 0;
  }

  /**
    `{x}` around an identifier that is not a number (it has a character other than a digit)
    opens no coefficient group: the closing brace is not where the number would end.
   */
  lemma BracesAroundNonNumber(x: string, tail: string)
    requires IsIdentifier(x) && !AllDigits(x)
    ensures BracedCoefficient("{" + x + "}" + tail).None?
  {
    var s := "{" + x + "}" + tail;
    var i :| 0 <= i < |x| && !IsDigit(x[i]);
    assert s[1..][i] == x[i];
    var n := NumberLength(s[1..]);
    assert n <= i;
    assert s[n + 1] == x[n];
  }

  lemma MatchAtBraced(d: string, run: string, rest: string)
    requires IsDecimal(d)
    requires IsIdentifier(run)
    requires rest == [] || !IsRunChar(rest[0])
    ensures MatchAt("{" + d + "}" + run + rest) == Some(Match(d, run))
  {
    BracedParts(d, run, rest);
  }

  /** The pieces of `{d}run rest` that `MatchAt` looks at. */
  lemma BracedParts(d: string, run: string, rest: string)
    requires IsDecimal(d)
    requires IsIdentifier(run)
    requires rest == [] || !IsRunChar(rest[0])
    ensures var s, k := "{" + d + "}" + run + rest, |d| + 2;
      BracedCoefficient(s) == Some(d) && RunLength(s[k..]) == |run| && s[k..k + |run|] == run
  {
    var tail := run + rest;
    var s := "{" + d + "}" + tail;
    assert "{" + d + "}" + run + rest == s;
    BracedOf(d, tail);
    var k := |d| + 2;
    assert s[k..] == tail;
    RunLengthOf(run, rest);
    assert s[k..k + |run|] == tail[..|run|] == run;
  }

  /**
    An identifier with no coefficient in front binds coefficient 1.0, and the scan resumes
    right after it.
   */
  lemma TokenizeRun(run: string, rest: string)
    requires IsIdentifier(run)
    requires rest == [] || !IsRunChar(rest[0])
    ensures Tokenize(run + rest) == [Entity(run, 1.0)] + Tokenize(rest)
  {
    MatchAtRun(run, rest);
    TokenizeMatch(run + rest, Match("", run));
    assert (run + rest)[|run|..] == rest;
  }

  /**
    A coefficient binds only to the identifier right after it: `{d}run` gives one pair
    `(run, float(d))`, and the scan resumes right after `run`.
   */
  lemma TokenizeBraced(d: string, run: string, rest: string)
    requires IsDecimal(d)
    requires IsIdentifier(run)
    requires rest == [] || !IsRunChar(rest[0])
    ensures Tokenize("{" + d + "}" + run + rest) == [Entity(run, DecimalValue(d))] + Tokenize(rest)
  {
    var s := "{" + d + "}" + run + rest;
    var m := Match(d, run);
    MatchAtBraced(d, run, rest);
    TokenizeMatch(s, m);
    assert MatchedText(m) == "{" + d + "}" + run;
    assert s == MatchedText(m) + rest;
    assert s[|MatchedText(m)|..] == rest;
  }

  /** A character that starts no match is skipped without producing anything. */
  lemma TokenizeSkip(s: string)
    requires |s| > 0 && !IsRunChar(s[0]) && !BracedStartsMatch(s)
    ensures Tokenize(s) == Tokenize(s[1..])
  {
    assert MatchAt(s).None?;
  }

  /** A single digit is a valid coefficient, worth that digit. */
  lemma SingleDigit(c: char)
    requires IsDigit(c)
    ensures IsDecimal([c]) && DecimalValue([c]) == DigitValue(c) as real
  {
    assert IndexOf([c], '.') == 1;
    assert [c][..1] == [c];
    assert [c][..0] == "";
    assert DigitsValue([c]) == DigitsValue("") * 10 + DigitValue(c);
  }

  /**
    Positional notation: the digits of `a` followed by those of `b` denote `a`'s value shifted
    left by `|b|` places plus `b`'s value.
   */
  lemma {:induction false} DigitsAppend(a: string, b: string)
    requires AllDigits(a) && AllDigits(b)
    ensures AllDigits(a + b)
    ensures DigitsValue(a + b) == DigitsValue(a) * Pow10(|b|) + DigitsValue(b)
    decreases |b|
  {
    if |b| == 0 {
      assert a + b == a;
    } else {
      var init, c := b[..|b| - 1], b[|b| - 1];
      var ab := a + b;
      assert ab[..|ab| - 1] == a + init && ab[|ab| - 1] == c;
      DigitsAppend(a, init);
      var v, w, p := DigitsValue(a), DigitsValue(init), Pow10(|init|);
      assert DigitsValue(ab) == DigitsValue(a + init) * 10 + DigitValue(c);
      assert DigitsValue(b) == w * 10 + DigitValue(c);
      assert Pow10(|b|) == p * 10;
      ShiftDigit(v, p, w, DigitValue(c));
    }
  }

  /** Appending a digit to `v * p + w` multiplies the shift by ten. */
  lemma ShiftDigit(v: nat, p: nat, w: nat, c: nat)
    ensures (v * p + w) * 10 + c == v * (p * 10) + (w * 10 + c)
  {
  }

  /**
    `float` of a decimal text: a digit string denotes its integer value, and `ip.fp` denotes
    the integer written by all its digits divided by ten to the number of fraction digits, so
    `float("2.5") == 25 / 10`.
   */
  lemma DecimalPositional(ip: string, fp: string)
    requires AllDigits(ip) && AllDigits(fp) && |fp| > 0
    ensures IsDecimal(fp) && DecimalValue(fp) == DigitsValue(fp) as real
    ensures IsDecimal(ip + "." + fp)
    ensures DecimalValue(ip + "." + fp) == DigitsValue(ip + fp) as real / Pow10(|fp|) as real
  {
    IntegerText(fp);
    FractionText(ip, fp);
    DigitsAppend(ip, fp);
    Rescale(DigitsValue(ip), DigitsValue(fp), Pow10(|fp|), DigitsValue(ip + fp), DecimalValue(ip + "." + fp));
  }

  /** If `v == x + y / q` and `n == x * q + y` then `v == n / q`, with `v` real and the rest natural. */
  lemma Rescale(x: nat, y: nat, q: nat, n: nat, v: real)
    requires q > 0 && n == x * q + y && v == x as real + y as real / q as real
    ensures v == n as real / q as real
  {
    assert (x * q) as real == x as real * q as real;
    ScaleBack(x as real, y as real, q as real);
  }

  /** A non-empty digit string is a decimal text worth its integer value. */
  lemma IntegerText(ds: string)
    requires AllDigits(ds) && |ds| > 0
    ensures IsDecimal(ds) && DecimalValue(ds) == DigitsValue(ds) as real
  {
    NoDot(ds);
    assert ds[..|ds|] == ds;
  }

  /** `ip.fp` is a decimal text worth `ip + fp / 10^|fp|`. */
  lemma FractionText(ip: string, fp: string)
    requires AllDigits(ip) && AllDigits(fp) && |fp| > 0
    ensures IsDecimal(ip + "." + fp)
    ensures DecimalValue(ip + "." + fp) == DigitsValue(ip) as real + DigitsValue(fp) as real / Pow10(|fp|) as real
  {
    var d := ip + "." + fp;
    DotAfter(ip, fp);
    assert |d| - |ip| - 1 == |fp|;
  }

  /** A digit string has no point. */
  lemma NoDot(ds: string)
    requires AllDigits(ds)
    ensures IndexOf(ds, '.') == |ds|
  {
  }

  /** In `ip.fp` the first point follows the integer digits. */
  lemma DotAfter(ip: string, fp: string)
    requires AllDigits(ip)
    ensures var d := ip + "." + fp;
      IndexOf(d, '.') == |ip| && d[..|ip|] == ip && d[|ip| + 1..] == fp
  {
    var d := ip + "." + fp;
    assert d[|ip|] == '.';
    assert forall i :: 0 <= i < |ip| ==> d[i] == ip[i];
  }

  /** `(a + b / p) * p == a * p + b` for a non-zero `p`. */
  lemma ScaleBack(a: real, b: real, p: real)
    requires p != 0.0
    ensures (a + b / p) * p == a * p + b
  {
  }

  /** Omitting the coefficient is the same as writing `{1}`: `{1}X` and `X` parse identically. */
  lemma DefaultCoefficient(s: string)
    requires |s| > 0 && IsRunChar(s[0])
    ensures Tokenize("{1}" + s) == Tokenize(s)
  {
    var n := RunLength(s);
    var run, rest := s[..n], s[n..];
    assert s == run + rest;
    SingleDigit('1');
    TokenizeRun(run, rest);
    assert "{1}" + s == "{" + "1" + "}" + run + rest;
    TokenizeBraced("1", run, rest);
  }

  /** The non-empty pieces of a split, in order. */
  function NonEmptyPieces(parts: seq<string>): (r: seq<string>)
    ensures forall p :: p in r <==> p in parts && p != ""
  {
    if |parts| == 0 then []
    else (if parts[0] == "" then [] else [parts[0]]) + NonEmptyPieces(parts[1..])
  }

  /** Each identifier paired with coefficient 1.0. */
  function UnitPairs(ids: seq<string>): (es: seq<Entity>)
    ensures |es| == |ids|
    ensures forall k :: 0 <= k < |ids| ==> es[k] == Entity(ids[k], 1.0)
  {
    if |ids| == 0 then [] else [Entity(ids[0], 1.0)] + UnitPairs(ids[1..])
  }

  /**
    A side without braces parses to its non-empty `.`-separated pieces, in order, each with
    coefficient 1.0; empty pieces (`A..B`, a leading or trailing dot) are dropped.
   */
  lemma {:induction false} BracelessSide(s: string)
    requires '{' !in s && '}' !in s
    ensures Tokenize(s) == UnitPairs(NonEmptyPieces(Split(s, '.')))
    decreases |s|
  {
    if |s| == 0 {
    } else if s[0] == '.' {
      TokenizeSkip(s);
      SplitLeadingSeparator(s, '.');
      BracelessSide(s[1..]);
    } else {
      var n := RunLength(s);
      var run, rest := s[..n], s[n..];
      assert s == run + rest;
      TokenizeRun(run, rest);
      if rest == [] {
        assert '.' !in s && s == run;
        SplitWithoutSeparator(s, '.');
        assert Tokenize(rest) == [];
        assert NonEmptyPieces([s]) == [s] + NonEmptyPieces([]);
      } else {
        var tail := rest[1..];
        assert rest[0] == '.';
        assert rest == [rest[0]] + tail;
        assert s == run + ['.'] + tail;
        assert '.' !in run;
        SplitAfterPiece(run, tail, '.');
        TokenizeSkip(rest);
        assert '{' !in tail && '}' !in tail by {
          assert forall c :: c in tail ==> c in s;
        }
        BracelessSide(tail);
        assert Tokenize(s) == [Entity(run, 1.0)] + Tokenize(tail);
        assert NonEmptyPieces(Split(s, '.')) == [run] + NonEmptyPieces(Split(tail, '.'));
      }
    }
  }

  /** `Tokenize` of a bare identifier is that identifier with coefficient 1.0. */
  lemma TokenizeIdentifier(id: string)
    requires IsIdentifier(id)
    ensures Tokenize(id) == [Entity(id, 1.0)]
  {
    TokenizeRun(id, []);
    assert id + [] == id;
  }
}
