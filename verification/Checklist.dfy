/**
 * The content-rule engine (src/notices/checklist.ts:44-91).  What a single rule finds in the text, the
 * payload or a block is taken as given by a `Judge`; how rules apply, refer to each other, shadow each
 * other and add up to a verdict is modelled.
 */
module Checklist {
  import opened Basics
  import opened TemplateValues
  import opened TemplateEngine

  datatype Severity = BlockSeverity | WarnSeverity

  datatype RuleKind = Presence | Absence | DataEquality | Conditional | DataRange | Layout | CrossRef

  datatype Rule = Rule(id: string, kind: RuleKind, selector: string, hasWhen: bool, severity: Severity)

  /** Pattern matches over the text, predicates and ranges over the payload, constraints on a block beside the body block. */
  datatype Judge = Judge(
    whenHolds: (Rule, Value) -> bool,
    matches: (string, string) -> bool,
    dataHolds: (Rule, Value) -> bool,
    blockHolds: (Rule, RenderedBlock, Option<RenderedBlock>) -> bool)

  /** A rendering as the rules see it. */
  datatype Rendered = Rendered(text: string, blocks: seq<RenderedBlock>)

  datatype RuleResult = RuleResult(id: string, severity: Severity, passed: bool, skipped: bool)

  function FindBlock(blocks: seq<RenderedBlock>, id: string): Option<RenderedBlock> {
    if blocks == [] then None else if blocks[0].id == id then Some(blocks[0]) else FindBlock(blocks[1..], id)
  }

  /** The verdict of one rule, given the results of the rules before it. */
  function EvaluateRule(r: Rule, payload: Value, rendered: Rendered, results: map<string, RuleResult>, judge: Judge): RuleResult {
    if r.hasWhen && !judge.whenHolds(r, payload) then RuleResult(r.id, r.severity, true, true)
    else
      var ok :=
        match r.kind
        case Presence => judge.matches(r.selector, rendered.text)
        case Absence => !judge.matches(r.selector, rendered.text)
        case DataEquality => judge.dataHolds(r, payload)
        case Conditional => judge.dataHolds(r, payload)
        case DataRange => judge.dataHolds(r, payload)
        case Layout =>
          var b := FindBlock(rendered.blocks, r.selector);
          b.Some? && judge.blockHolds(r, b.value, FindBlock(rendered.blocks, "body"))
        case CrossRef => r.selector in results && results[r.selector].passed;
      RuleResult(r.id, r.severity, ok, false)
  }

  /** The results after the first `k` rules; a later rule with the same id replaces the earlier one's result. */
  function ResultsAfter(rules: seq<Rule>, k: nat, payload: Value, rendered: Rendered, judge: Judge): map<string, RuleResult>
    requires k <= |rules|
  {
    if k == 0 then map[]
    else
      var before := ResultsAfter(rules, k - 1, payload, rendered, judge);
      before[rules[k - 1].id := EvaluateRule(rules[k - 1], payload, rendered, before, judge)]
  }

  /** The verdict of the `i`-th rule when its turn comes. */
  function Verdict(rules: seq<Rule>, i: nat, payload: Value, rendered: Rendered, judge: Judge): RuleResult
    requires i < |rules|
  {
    EvaluateRule(rules[i], payload, rendered, ResultsAfter(rules, i, payload, rendered, judge), judge)
  }

  predicate Blocking(r: RuleResult) { !r.passed && r.severity == BlockSeverity }

  /** No blocking result is left. */
  predicate Passed(rules: seq<Rule>, payload: Value, rendered: Rendered, judge: Judge) {
    var results := ResultsAfter(rules, |rules|, payload, rendered, judge);
    forall id | id in results :: !Blocking(results[id])
  }

  /** The last of the first `k` rules with this id. */
  function LastWith(rules: seq<Rule>, k: nat, id: string): (i: Option<nat>)
    requires k <= |rules|
    ensures i.Some? ==> i.value < k && rules[i.value].id == id && forall j | i.value < j < k :: rules[j].id != id
    ensures i.None? ==> forall j | 0 <= j < k :: rules[j].id != id
  {
    if k == 0 then None else if rules[k - 1].id == id then Some(k - 1) else LastWith(rules, k - 1, id)
  }

  /** No later rule has the same id. */
  predicate IsLast(rules: seq<Rule>, i: nat)
    requires i < |rules|
  {
    forall j | i < j < |rules| :: rules[j].id != rules[i].id
  }

  /** The result under an id is the verdict of the last rule that has it. */
  lemma {:induction false} ResultUnder(rules: seq<Rule>, k: nat, id: string, payload: Value, rendered: Rendered, judge: Judge)
    requires k <= |rules|
    ensures var results, last := ResultsAfter(rules, k, payload, rendered, judge), LastWith(rules, k, id);
            && (id in results <==> last.Some?)
            && (last.Some? ==> results[id] == Verdict(rules, last.value, payload, rendered, judge))
  {
    hide EvaluateRule;
    if k > 0 {
      ResultUnder(rules, k - 1, id, payload, rendered, judge);
    }
  }

  /**
   * A checklist passes exactly when every rule that no later rule with the same id replaces is passed,
   * skipped or a warning.
   */
  lemma PassedExact(rules: seq<Rule>, payload: Value, rendered: Rendered, judge: Judge)
    ensures Passed(rules, payload, rendered, judge) <==>
            forall i | 0 <= i < |rules| && IsLast(rules, i) :: !Blocking(Verdict(rules, i, payload, rendered, judge))
  {
    hide EvaluateRule, ResultsAfter, Verdict, Blocking;
    var results := ResultsAfter(rules, |rules|, payload, rendered, judge);
    forall i | 0 <= i < |rules| && IsLast(rules, i)
      ensures rules[i].id in results && results[rules[i].id] == Verdict(rules, i, payload, rendered, judge)
    {
      ResultUnder(rules, |rules|, rules[i].id, payload, rendered, judge);
    }
    forall id | id in results
      ensures exists i :: 0 <= i < |rules| && IsLast(rules, i) && results[id] == Verdict(rules, i, payload, rendered, judge)
    {
      ResultUnder(rules, |rules|, id, payload, rendered, judge);
      assert IsLast(rules, LastWith(rules, |rules|, id).value);
    }
  }

  /**
   * A cross reference that applies passes exactly when the rule it names comes earlier and, of the earlier
   * rules with that id, the last one passed: a reference to a later rule fails.
   */
  lemma CrossRefExact(rules: seq<Rule>, i: nat, payload: Value, rendered: Rendered, judge: Judge)
    requires i < |rules| && rules[i].kind == CrossRef && (rules[i].hasWhen ==> judge.whenHolds(rules[i], payload))
    ensures var last := LastWith(rules, i, rules[i].selector);
            Verdict(rules, i, payload, rendered, judge).passed <==> last.Some? && Verdict(rules, last.value, payload, rendered, judge).passed
  {
    hide ResultsAfter;
    ResultUnder(rules, i, rules[i].selector, payload, rendered, judge);
  }

  /** The first block with this id, if there is one. */
  lemma {:induction false} FindBlockExact(blocks: seq<RenderedBlock>, id: string)
    ensures FindBlock(blocks, id) == None <==> forall k | 0 <= k < |blocks| :: blocks[k].id != id
    ensures forall k | 0 <= k < |blocks| && blocks[k].id == id && (forall j | 0 <= j < k :: blocks[j].id != id) ::
              FindBlock(blocks, id) == Some(blocks[k])
  {
    if blocks != [] { FindBlockExact(blocks[1..], id); }
  }

  /** A rule whose condition does not hold is skipped and passes; every verdict carries its rule's id and severity. */
  lemma SkippedExact(rules: seq<Rule>, i: nat, payload: Value, rendered: Rendered, judge: Judge)
    requires i < |rules|
    ensures var v := Verdict(rules, i, payload, rendered, judge);
            && v.id == rules[i].id && v.severity == rules[i].severity
            && (v.skipped <==> rules[i].hasWhen && !judge.whenHolds(rules[i], payload))
            && (v.skipped ==> v.passed)
  {
    hide ResultsAfter;
  }

  /** What a rule that applies asks for, kind by kind; a layout rule whose block was not rendered fails. */
  lemma VerdictByKind(rules: seq<Rule>, i: nat, payload: Value, rendered: Rendered, judge: Judge)
    requires i < |rules| && (rules[i].hasWhen ==> judge.whenHolds(rules[i], payload))
    ensures var r, passed := rules[i], Verdict(rules, i, payload, rendered, judge).passed;
            match r.kind
            case Presence => passed <==> judge.matches(r.selector, rendered.text)
            case Absence => passed <==> !judge.matches(r.selector, rendered.text)
            case DataEquality => passed <==> judge.dataHolds(r, payload)
            case Conditional => passed <==> judge.dataHolds(r, payload)
            case DataRange => passed <==> judge.dataHolds(r, payload)
            case Layout =>
              && (passed ==> exists k :: 0 <= k < |rendered.blocks| && rendered.blocks[k].id == r.selector)
              && forall k | 0 <= k < |rendered.blocks| && rendered.blocks[k].id == r.selector && (forall j | 0 <= j < k :: rendered.blocks[j].id != r.selector) ::
                   passed <==> judge.blockHolds(r, rendered.blocks[k], FindBlock(rendered.blocks, "body"))
            case CrossRef =>
              var last := LastWith(rules, i, r.selector);
              passed <==> last.Some? && Verdict(rules, last.value, payload, rendered, judge).passed
  {
    hide ResultsAfter;
    if rules[i].kind == Layout {
      FindBlockExact(rendered.blocks, rules[i].selector);
    } else if rules[i].kind == CrossRef {
      CrossRefExact(rules, i, payload, rendered, judge);
    }
  }

  /** No block rule has a later rule with its id. */
  predicate BlockRulesLast(rules: seq<Rule>) {
    forall i | 0 <= i < |rules| && rules[i].severity == BlockSeverity :: IsLast(rules, i)
  }

  /** When no block rule has a later rule with its id, a checklist passes exactly when no block rule fails. */
  lemma PassedIsConjunction(rules: seq<Rule>, payload: Value, rendered: Rendered, judge: Judge)
    requires BlockRulesLast(rules)
    ensures Passed(rules, payload, rendered, judge) <==>
            forall i | 0 <= i < |rules| :: !Blocking(Verdict(rules, i, payload, rendered, judge))
  {
    hide Passed, ResultsAfter;
    PassedExact(rules, payload, rendered, judge);
  }

  /** Two rules with one id: the first fails and blocks, the second is a warning, and the checklist passes. */
  lemma DuplicateIdHidesFailure(judge: Judge, payload: Value, rendered: Rendered)
    requires !judge.matches("TOTAL DUE", rendered.text)
    ensures var rules := [Rule("r", Presence, "TOTAL DUE", false, BlockSeverity), Rule("r", Absence, "TOTAL DUE", false, WarnSeverity)];
            && Blocking(Verdict(rules, 0, payload, rendered, judge))
            && Passed(rules, payload, rendered, judge)
  {
    var rules := [Rule("r", Presence, "TOTAL DUE", false, BlockSeverity), Rule("r", Absence, "TOTAL DUE", false, WarnSeverity)];
    PassedExact(rules, payload, rendered, judge);
    assert !IsLast(rules, 0) by { assert rules[1].id == rules[0].id; }
  }

  /** The engine as the source runs it: rules in order, each result entered under its rule's id, then the blocking ones counted. */
  method EvaluateChecklist(rules: seq<Rule>, payload: Value, rendered: Rendered, judge: Judge)
    returns (passed: bool, results: map<string, RuleResult>)
    ensures results == ResultsAfter(rules, |rules|, payload, rendered, judge)
    ensures passed == Passed(rules, payload, rendered, judge)
  {
    results := map[];
    for k := 0 to |rules|
      invariant results == ResultsAfter(rules, k, payload, rendered, judge)
    {
      results := results[rules[k].id := EvaluateRule(rules[k], payload, rendered, results, judge)];
    }
    var blocking := set id | id in results && Blocking(results[id]);
    passed := blocking == {};
    assert passed ==> forall id | id in results :: id !in blocking;
    if !passed {
      var id :| id in blocking;
    }
  }
}
