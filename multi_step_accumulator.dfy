/**
  The fold over the lines of a multi-step route. Each parsed step charges the reactants that
  no earlier step produced (intermediates are not charged again), remembers its products for
  the filtering of later steps, and becomes the step whose products are the route's output.
 */
module MultiStepAccumulator {
  import opened Wrappers
  import opened CoefficientExtractor
  import opened ReactionStepParser

  /** `[p[0] for p in overall_products]`: the identifiers, in order. */
  function Ids(es: seq<Entity>): (ids: seq<string>)
    ensures |ids| == |es|
    ensures forall k :: 0 <= k < |es| ==> ids[k] == es[k].id
  {
    if |es| == 0 then [] else [es[0].id] + Ids(es[1..])
  }

  /**
    The reactant filter: a reactant is kept exactly when its identifier is not, as a string,
    one of the identifiers in `history`. Order (`AdmitAppend`) and duplicates
    (`AdmitKeepsDuplicates`) are kept.
   */
  function Admit(reactants: seq<Entity>, history: seq<string>): (admitted: seq<Entity>)
    ensures forall e :: e in admitted <==> e in reactants && e.id !in history
  {
    if |reactants| == 0 then []
    else (if reactants[0].id in history then [] else [reactants[0]]) + Admit(reactants[1..], history)
  }

  /** Duplicates survive the filter: each kept reactant is kept as many times as it occurs. */
  lemma {:induction false} AdmitKeepsDuplicates(reactants: seq<Entity>, history: seq<string>, e: Entity)
    ensures multiset(Admit(reactants, history))[e] == if e.id in history then 0 else multiset(reactants)[e]
  {
    if |reactants| > 0 {
      var head, tail := reactants[0], reactants[1..];
      AdmitKeepsDuplicates(tail, history, e);
      var kept := if head.id in history then [] else [head];
      assert Admit(reactants, history) == kept + Admit(tail, history);
      assert reactants == [head] + tail;
      assert multiset(reactants) == multiset([head]) + multiset(tail);
      assert multiset(Admit(reactants, history)) == multiset(kept) + multiset(Admit(tail, history));
    }
  }

  /** The filter keeps the input order: filtering a concatenation filters each part in place. */
  lemma {:induction false} AdmitAppend(a: seq<Entity>, b: seq<Entity>, history: seq<string>)
    ensures Admit(a + b, history) == Admit(a, history) + Admit(b, history)
    decreases |a|
  {
    if |a| == 0 {
      assert a + b == b;
    } else {
      assert (a + b)[0] == a[0] && (a + b)[1..] == a[1..] + b;
      AdmitAppend(a[1..], b, history);
    }
  }

  /** A filter that matches nothing keeps the whole list. */
  lemma {:induction false} AdmitAll(reactants: seq<Entity>, history: seq<string>)
    requires forall e :: e in reactants ==> e.id !in history
    ensures Admit(reactants, history) == reactants
  {
    if |reactants| > 0 {
      assert reactants[0] in reactants;
      assert forall e :: e in reactants[1..] ==> e in reactants;
      AdmitAll(reactants[1..], history);
    }
  }

  /**
    The local state of the loop: `overall_reactants`, `overall_products` and
    `product_smiles_list` (None while that name is still unbound).
   */
  datatype Accumulation = Accumulation(reactants: seq<Entity>, products: seq<Entity>, terminal: Option<seq<Entity>>)

  const Start := Accumulation([], [], None)

  /** One parsed step: filter against the earlier products, then extend both lists. */
  function AddStep(acc: Accumulation, st: Step): Accumulation
  {
    Accumulation(acc.reactants + Admit(st.reactants, Ids(acc.products)),
                 acc.products + st.products,
                 Some(st.products))
  }

  /** The state after the loop has gone through `lines`; a line that does not parse changes nothing. */
  function Accumulate(lines: seq<string>): Accumulation
    decreases |lines|
  {
    if |lines| == 0 then Start
    else
      var acc := Accumulate(lines[..|lines| - 1]);
      match ParseStep(lines[|lines| - 1])
      case None => acc
      case Some(st) => AddStep(acc, st)
  }

  // ---------------------------------------------------------------- a reference definition

  /** The steps of the lines that parse, in line order. */
  function ParsedSteps(lines: seq<string>): seq<Step>
    decreases |lines|
  {
    if |lines| == 0 then []
    else
      var steps := ParsedSteps(lines[..|lines| - 1]);
      match ParseStep(lines[|lines| - 1])
      case None => steps
      case Some(st) => steps + [st]
  }

  /** All products of `steps`, in order. */
  function AllProducts(steps: seq<Step>): seq<Entity>
  {
    if |steps| == 0 then [] else AllProducts(steps[..|steps| - 1]) + steps[|steps| - 1].products
  }

  /** The reactants step `j` is charged: those no step before `j` produced. */
  function AdmittedAt(steps: seq<Step>, j: nat): seq<Entity>
    requires j < |steps|
  {
    Admit(steps[j].reactants, Ids(AllProducts(steps[..j])))
  }

  /** The admitted reactants of every step, step after step. */
  function AllAdmitted(steps: seq<Step>): seq<Entity>
  {
    if |steps| == 0 then [] else AllAdmitted(steps[..|steps| - 1]) + AdmittedAt(steps, |steps| - 1)
  }

  /** The products of the last step, or None when there is no step. */
  function LastProducts(steps: seq<Step>): Option<seq<Entity>>
  {
    if |steps| == 0 then None else Some(steps[|steps| - 1].products)
  }

  /** One more step extends the reference lists by what that step admits and produces. */
  lemma AllAdmittedAppend(steps: seq<Step>, st: Step)
    ensures AllAdmitted(steps + [st]) == AllAdmitted(steps) + Admit(st.reactants, Ids(AllProducts(steps)))
    ensures AllProducts(steps + [st]) == AllProducts(steps) + st.products
  {
    assert (steps + [st])[..|steps|] == steps;
  }

  /**
    The loop computes the reference: the reactant list is the in-order concatenation of what
    each parsed step admits, the product history is every parsed step's products, and the
    terminal products are the last parsed step's.
   */
  lemma {:induction false} AccumulateIsReference(lines: seq<string>)
    ensures Accumulate(lines).reactants == AllAdmitted(ParsedSteps(lines))
    ensures Accumulate(lines).products == AllProducts(ParsedSteps(lines))
    ensures Accumulate(lines).terminal == LastProducts(ParsedSteps(lines))
    decreases |lines|
  {
    if |lines| > 0 {
      var prefix := lines[..|lines| - 1];
      AccumulateIsReference(prefix);
      match ParseStep(lines[|lines| - 1])
      case None =>
      case Some(st) =>
        AllAdmittedAppend(ParsedSteps(prefix), st);
    }
  }

  // ---------------------------------------------------------------- properties

  /** `x` is the identifier of a product of one of `steps`. */
  ghost predicate ProducedBy(steps: seq<Step>, x: string)
  {
    exists k, p :: 0 <= k < |steps| && p in steps[k].products && p.id == x
  }

  lemma IdsMembership(es: seq<Entity>, x: string)
    ensures x in Ids(es) <==> exists p :: p in es && p.id == x
  {
    if x in Ids(es) {
      var i :| 0 <= i < |es| && Ids(es)[i] == x;
      assert es[i] in es;
    }
    if exists p :: p in es && p.id == x {
      var p :| p in es && p.id == x;
      var i :| 0 <= i < |es| && es[i] == p;
      assert Ids(es)[i] == x;
    }
  }

  lemma {:induction false} AllProductsMembership(steps: seq<Step>, p: Entity)
    ensures p in AllProducts(steps) <==> exists k :: 0 <= k < |steps| && p in steps[k].products
    decreases |steps|
  {
    if |steps| > 0 {
      var n := |steps| - 1;
      var init := steps[..n];
      AllProductsMembership(init, p);
      assert forall k :: 0 <= k < n ==> init[k] == steps[k];
      if p in AllProducts(init) {
        var k :| 0 <= k < |init| && p in init[k].products;
        assert p in steps[k].products;
      }
    }
  }

  lemma IdsOfAllProducts(steps: seq<Step>, x: string)
    ensures x in Ids(AllProducts(steps)) <==> ProducedBy(steps, x)
  {
    IdsMembership(AllProducts(steps), x);
    if x in Ids(AllProducts(steps)) {
      var p :| p in AllProducts(steps) && p.id == x;
      AllProductsMembership(steps, p);
    }
    if ProducedBy(steps, x) {
      var k, p :| 0 <= k < |steps| && p in steps[k].products && p.id == x;
      AllProductsMembership(steps, p);
    }
  }

  /**
    Intermediate exclusion: a reactant of step `j` is charged exactly when its identifier is
    not the identifier of a product of an earlier step. Products of step `j` itself do not
    filter step `j`.
   */
  lemma IntermediateExclusion(steps: seq<Step>, j: nat, e: Entity)
    requires j < |steps| && e in steps[j].reactants
    ensures e in AdmittedAt(steps, j) <==> !ProducedBy(steps[..j], e.id)
  {
    IdsOfAllProducts(steps[..j], e.id);
  }

  /** One more line at the end: it is parsed and, if it parses, applied. */
  lemma AccumulateSnoc(lines: seq<string>, line: string)
    ensures Accumulate(lines + [line])
         == match ParseStep(line) case None => Accumulate(lines) case Some(st) => AddStep(Accumulate(lines), st)
    ensures ParsedSteps(lines + [line])
         == match ParseStep(line) case None => ParsedSteps(lines) case Some(st) => ParsedSteps(lines) + [st]
  {
    assert (lines + [line])[..|lines|] == lines;
  }

  /**
    The overall lists are only ever extended, never rewritten, and once the output list is
    bound it stays bound: the state after some lines is a prefix of the state after more.
   */
  lemma {:induction false} AccumulateGrows(lines: seq<string>, more: seq<string>)
    ensures var before, after := Accumulate(lines), Accumulate(lines + more);
      before.reactants <= after.reactants && before.products <= after.products &&
      (before.terminal.Some? ==> after.terminal.Some?)
    decreases |more|
  {
    if |more| == 0 {
      assert lines + more == lines;
    } else {
      var init, last := more[..|more| - 1], more[|more| - 1];
      AccumulateGrows(lines, init);
      assert lines + more == (lines + init) + [last];
      AccumulateSnoc(lines + init, last);
      var mid := Accumulate(lines + init);
      match ParseStep(last)
      case None =>
      case Some(st) =>
        var next := AddStep(mid, st);
        assert mid.reactants <= next.reactants && mid.products <= next.products;
    }
  }

  /** Lines that do not parse leave the accumulated state as it was, wherever they stand. */
  lemma SkipUnparsedLine(before: seq<string>, line: string, after: seq<string>)
    requires ParseStep(line).None?
    ensures Accumulate(before + [line] + after) == Accumulate(before + after)
    ensures ParsedSteps(before + [line] + after) == ParsedSteps(before + after)
  {
    SkipUnparsedState(before, line, after);
    SkipUnparsedStep(before, line, after);
  }

  lemma {:induction false} SkipUnparsedState(before: seq<string>, line: string, after: seq<string>)
    requires ParseStep(line).None?
    ensures Accumulate(before + [line] + after) == Accumulate(before + after)
    decreases |after|
  {
    if |after| == 0 {
      assert before + [line] + after == before + [line] && before + after == before;
      AccumulateSnoc(before, line);
    } else {
      var a, last := after[..|after| - 1], after[|after| - 1];
      SkipUnparsedState(before, line, a);
      var x, y := before + [line] + a, before + a;
      assert after == a + [last];
      assert before + [line] + after == x + [last];
      assert before + after == y + [last];
      AccumulateSnoc(x, last);
      AccumulateSnoc(y, last);
    }
  }

  lemma {:induction false} SkipUnparsedStep(before: seq<string>, line: string, after: seq<string>)
    requires ParseStep(line).None?
    ensures ParsedSteps(before + [line] + after) == ParsedSteps(before + after)
    decreases |after|
  {
    if |after| == 0 {
      assert before + [line] + after == before + [line] && before + after == before;
      AccumulateSnoc(before, line);
    } else {
      var a, last := after[..|after| - 1], after[|after| - 1];
      SkipUnparsedStep(before, line, a);
      var x, y := before + [line] + a, before + a;
      assert after == a + [last];
      assert before + [line] + after == x + [last];
      assert before + after == y + [last];
      AccumulateSnoc(x, last);
      AccumulateSnoc(y, last);
    }
  }

  /** None of `lines` is a well-formed step. */
  predicate NoLineParses(lines: seq<string>)
  {
    forall i :: 0 <= i < |lines| ==> ParseStep(lines[i]).None?
  }

  /** No line parses exactly when `product_smiles_list` is never bound. */
  lemma {:induction false} NoParsedLine(lines: seq<string>)
    ensures Accumulate(lines).terminal.None? <==> NoLineParses(lines)
    decreases |lines|
  {
    if |lines| > 0 {
      var prefix := lines[..|lines| - 1];
      NoParsedLine(prefix);
      assert forall i :: 0 <= i < |prefix| ==> prefix[i] == lines[i];
    }
  }

  /** The terminal products are those of the last line that parses, never a union across lines. */
  lemma {:induction false} TerminalIsLastParsedLine(lines: seq<string>, j: nat)
    requires j < |lines| && ParseStep(lines[j]).Some?
    requires forall k :: j < k < |lines| ==> ParseStep(lines[k]).None?
    ensures Accumulate(lines).terminal == Some(ParseStep(lines[j]).value.products)
    decreases |lines|
  {
    var prefix := lines[..|lines| - 1];
    if j < |lines| - 1 {
      assert forall k :: j < k < |prefix| ==> prefix[k] == lines[k];
      TerminalIsLastParsedLine(prefix, j);
    }
  }

  /** For a single parsed line the reactant list is that line's full reactant list. */
  lemma OneLine(line: string, st: Step)
    requires ParseStep(line) == Some(st)
    ensures Accumulate([line]) == Accumulation(st.reactants, st.products, Some(st.products))
  {
    assert [line][..0] == [];
    AdmitAll(st.reactants, []);
  }
}
