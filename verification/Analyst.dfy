/**
 * The guard loop around the refinance analyst's model (src/runtime/partner-book-analyst.ts:101-113, 147-198):
 * a model that may call any tool with any input and say anything, two tools, a provenance guard, and one
 * regeneration.  The turn itself (src/runtime/borrower/agent/llm.ts:70-103) executes calls up to a budget.
 */
module Analyst {
  import opened Basics
  import opened TemplateScan

  /** The nominal budget of a run: `review_facts`, then `review_write`. */
  const MAX_TOOL_CALLS := 2

  const FLAGS := ["value_stale", "value_low_confidence", "arm_reset_within_12m", "prepayment_penalty", "recent_modification",
                  "pay_string_late", "bankruptcy_or_foreclosure", "high_ltv", "tape_exception"]

  /** The `flags` of a tool input: missing, something else than an array, or texts. */
  datatype FlagsInput = Missing | NotAnArray | Codes(codes: seq<string>)

  /** A tool input: the names of its other members, the rationale when it is a text, the flags. */
  datatype Input = Input(extra: seq<string>, rationale: Option<string>, flags: FlagsInput)

  datatype Write = Write(rationale: string, flags: seq<string>)

  datatype Refusal = NeverDecides | BadFlags | BadInput

  /** The two checks taken as given: whether a text is just a number, and the guard's violation if any. */
  datatype Checks = Checks(isNumber: string -> bool, violation: string -> Option<string>)

  /** The allowed codes among `codes`, each once, in order of first appearance. */
  function Allowed(codes: seq<string>): seq<string> {
    if codes == [] then []
    else
      var before, x := Allowed(codes[..|codes| - 1]), codes[|codes| - 1];
      if x in FLAGS && x !in before then before + [x] else before
  }

  function Validate(input: Input, c: Checks): Result<Write, Refusal> {
    if input.extra != [] then Err(NeverDecides)
    else if input.rationale.None? || Trim(input.rationale.value) == "" then Err(BadInput)
    else if c.isNumber(input.rationale.value) then Err(NeverDecides)
    else if input.flags.NotAnArray? then Err(BadInput)
    else
      var codes := if input.flags.Codes? then input.flags.codes else [];
      if exists x | x in codes :: x !in FLAGS then Err(BadFlags) else Ok(Write(Trim(input.rationale.value), Allowed(codes)))
  }

  ghost predicate NoRepeats(s: seq<string>) { forall i, j | 0 <= i < j < |s| :: s[i] != s[j] }

  ghost predicate GoodFlags(s: seq<string>) { NoRepeats(s) && forall i | 0 <= i < |s| :: s[i] in FLAGS }

  lemma {:induction false} AllowedIsGood(codes: seq<string>)
    ensures GoodFlags(Allowed(codes))
    ensures forall x :: x in Allowed(codes) <==> x in codes && x in FLAGS
  {
    hide FLAGS;
    if codes != [] {
      AllowedIsGood(codes[..|codes| - 1]);
      assert codes == codes[..|codes| - 1] + [codes[|codes| - 1]];
    }
  }

  /**
   * An input is accepted exactly when it has no other member, its rationale is a text that is neither blank
   * nor a number, and its flags are missing or all allowed; the write then has the trimmed rationale and
   * each given flag once.
   */
  lemma ValidateExact(input: Input, c: Checks)
    ensures var r := Validate(input, c);
            && (r.Ok? <==> input.extra == [] && input.rationale.Some? && Trim(input.rationale.value) != "" && !c.isNumber(input.rationale.value)
                           && !input.flags.NotAnArray? && (input.flags.Codes? ==> forall x | x in input.flags.codes :: x in FLAGS))
            && (r.Ok? ==> r.value.rationale == Trim(input.rationale.value) && GoodFlags(r.value.flags)
                          && forall x :: x in r.value.flags <==> input.flags.Codes? && x in input.flags.codes)
            && (input.extra != [] ==> r == Err(NeverDecides))
  {
    hide FLAGS;
    AllowedIsGood(if input.flags.Codes? then input.flags.codes else []);
  }

  /** The validator as the source runs it: one loop filling the two lists. */
  method ValidateWrite(input: Input, c: Checks) returns (r: Result<Write, Refusal>)
    ensures r == Validate(input, c)
  {
    hide FLAGS;
    if input.extra != [] { return Err(NeverDecides); }
    if input.rationale.None? || Trim(input.rationale.value) == "" { return Err(BadInput); }
    if c.isNumber(input.rationale.value) { return Err(NeverDecides); }
    if input.flags.NotAnArray? { return Err(BadInput); }
    var codes := if input.flags.Codes? then input.flags.codes else [];
    var flags, bad := SortFlags(codes);
    if bad != [] { return Err(BadFlags); }
    return Ok(Write(Trim(input.rationale.value), flags));
  }

  method SortFlags(codes: seq<string>) returns (flags: seq<string>, bad: seq<string>)
    ensures flags == Allowed(codes)
    ensures bad != [] <==> exists x | x in codes :: x !in FLAGS
  {
    hide FLAGS;
    flags, bad := [], [];
    for k := 0 to |codes|
      invariant flags == Allowed(codes[..k])
      invariant bad != [] <==> exists i :: 0 <= i < k && codes[i] !in FLAGS
    {
      assert codes[..k + 1][..k] == codes[..k];
      if codes[k] in FLAGS {
        if codes[k] !in flags { flags := flags + [codes[k]]; }
      } else {
        bad := bad + [codes[k]];
      }
    }
    assert codes[..|codes|] == codes;
  }

  // ---- turns

  datatype Tool = ReviewFacts | ReviewWrite | Unknown

  /** A call the model makes. */
  datatype Call = Call(id: string, tool: Tool, input: Input)

  /** What the model does in one turn: the calls it makes, in order, what it says, or its refusal. */
  datatype Reply = Reply(calls: seq<Call>, text: string, refused: bool)

  predicate Accepts(call: Call, c: Checks) { call.tool == ReviewWrite && Validate(call.input, c).Ok? }

  /** How many calls of a turn are executed; the rest are answered with an error. */
  function Spent(calls: seq<Call>, budget: nat): nat { if |calls| <= budget then |calls| else budget }

  /** The accepted writes by call id; a later one with the same id replaces an earlier one. */
  function WritesAfter(writes: map<string, Write>, calls: seq<Call>, c: Checks): map<string, Write> {
    if calls == [] then writes
    else
      var before, call := WritesAfter(writes, calls[..|calls| - 1], c), calls[|calls| - 1];
      if Accepts(call, c) then before[call.id := Validate(call.input, c).value] else before
  }

  /** The last accepted write of a turn's executed calls. */
  function LastAccepted(calls: seq<Call>, c: Checks): Option<Call> {
    if calls == [] then None
    else if Accepts(calls[|calls| - 1], c) then Some(calls[|calls| - 1])
    else LastAccepted(calls[..|calls| - 1], c)
  }

  datatype Proposal = Proposal(rationale: Option<string>, flags: Option<seq<string>>)

  /** The turn's last accepted write; in a regeneration, without one, the text stands in. */
  function Proposed(reply: Reply, spent: nat, textStandsIn: bool, c: Checks): Proposal
    requires spent <= |reply.calls|
  {
    match LastAccepted(reply.calls[..spent], c)
    case Some(call) => if Validate(call.input, c).Ok? then (var w := Validate(call.input, c).value; Proposal(Some(w.rationale), Some(w.flags))) else Proposal(None, None)
    case None => Proposal(if textStandsIn && Trim(reply.text) != "" then Some(Trim(reply.text)) else None, None)
  }

  datatype Outcome = Written | Provenance | Refused | NoWrite

  datatype Run = Run(outcome: Outcome, rationale: Option<string>, flags: seq<string>, ok: bool, turns: nat, executed: nat)

  function OrElse(a: Option<seq<string>>, b: seq<string>): seq<string> { if a.Some? then a.value else b }

  function Remaining(first: Reply, budget: nat): nat { if budget - |first.calls| > 1 then budget - |first.calls| else 1 }

  /** The whole run, for whatever the model does in its first turn and, if asked again, in its second. */
  function RunOf(first: Reply, second: Reply, budget: nat, c: Checks): Run {
    var n1 := Spent(first.calls, budget);
    if first.refused then Run(Refused, None, [], false, 1, n1)
    else
      var w1 := Proposed(first, n1, false, c);
      if w1.rationale.None? then Run(NoWrite, None, [], false, 1, n1)
      else if c.violation(w1.rationale.value).None? then Run(Written, w1.rationale, OrElse(w1.flags, []), true, 1, n1)
      else
        var n2 := Spent(second.calls, Remaining(first, budget));
        if second.refused then Run(Refused, None, OrElse(w1.flags, []), false, 2, n1 + n2)
        else
          var w2 := Proposed(second, n2, true, c);
          var flags := OrElse(w2.flags, OrElse(w1.flags, []));
          if w2.rationale.None? || c.violation(w2.rationale.value).Some? then Run(Provenance, None, flags, false, 2, n1 + n2)
          else Run(Written, w2.rationale, flags, true, 2, n1 + n2)
  }

  lemma {:induction false} AcceptedIsWritten(writes: map<string, Write>, calls: seq<Call>, c: Checks)
    ensures var last := LastAccepted(calls, c);
            last.Some? ==> Accepts(last.value, c)
                           && last.value.id in WritesAfter(writes, calls, c)
                           && WritesAfter(writes, calls, c)[last.value.id] == Validate(last.value.input, c).value
  {
    hide Validate;
    if calls != [] { AcceptedIsWritten(writes, calls[..|calls| - 1], c); }
  }

  /** The mutable state of one run: the accepted writes by call id, and how many calls were executed. */
  class Session {
    var writes: map<string, Write>
    var executed: nat

    constructor ()
      ensures writes == map[] && executed == 0
    {
      writes, executed := map[], 0;
    }

    method Execute(call: Call, c: Checks) returns (isError: bool)
      modifies this
      ensures executed == old(executed) + 1
      ensures writes == if Accepts(call, c) then old(writes)[call.id := Validate(call.input, c).value] else old(writes)
      ensures call.tool == ReviewWrite ==> isError == !Accepts(call, c)
    {
      hide Validate;
      executed := executed + 1;
      if call.tool == Unknown { return true; }
      if call.tool == ReviewFacts { return false; }
      var v := ValidateWrite(call.input, c);
      if v.Err? { return true; }
      writes := writes[call.id := v.value];
      return false;
    }

    /** One turn of the model, up to its budget; `errors` is what the port reports of each call. */
    method Turn(reply: Reply, budget: nat, c: Checks) returns (errors: seq<bool>)
      modifies this
      ensures |errors| == |reply.calls| && executed == old(executed) + Spent(reply.calls, budget)
      ensures writes == WritesAfter(old(writes), reply.calls[..Spent(reply.calls, budget)], c)
      ensures forall k | 0 <= k < |errors| && reply.calls[k].tool == ReviewWrite :: errors[k] == (k >= budget || !Accepts(reply.calls[k], c))
    {
      hide Accepts, Validate;
      errors := [];
      for k := 0 to |reply.calls|
        invariant |errors| == k && executed == old(executed) + Spent(reply.calls[..k], budget)
        invariant writes == WritesAfter(old(writes), reply.calls[..Spent(reply.calls[..k], budget)], c)
        invariant forall j | 0 <= j < k && reply.calls[j].tool == ReviewWrite :: errors[j] == (j >= budget || !Accepts(reply.calls[j], c))
      {
        if k >= budget {
          errors := errors + [true];
        } else {
          assert reply.calls[..k + 1][..k] == reply.calls[..k];
          var e := Execute(reply.calls[k], c);
          errors := errors + [e];
        }
      }
    }

    method RunModel(first: Reply, second: Reply, c: Checks, budget: nat := MAX_TOOL_CALLS) returns (run: Run)
      requires writes == map[] && executed == 0
      modifies this
      ensures run == RunOf(first, second, budget, c) && run.executed == executed
    {
      hide Proposed, WritesAfter, Looked;
      var errors := Turn(first, budget, c);
      if first.refused { return Run(Refused, None, [], false, 1, executed); }
      var w1 := Looked(first, errors, |errors|, false, writes);
      LookedIsProposed(map[], first, errors, budget, false, c);
      if w1.rationale.None? { return Run(NoWrite, None, [], false, 1, executed); }
      var v1 := c.violation(w1.rationale.value);
      if v1.None? { return Run(Written, w1.rationale, OrElse(w1.flags, []), true, 1, executed); }
      ghost var before := writes;
      errors := Turn(second, Remaining(first, budget), c);
      if second.refused { return Run(Refused, None, OrElse(w1.flags, []), false, 2, executed); }
      var w2 := Looked(second, errors, |errors|, true, writes);
      LookedIsProposed(before, second, errors, Remaining(first, budget), true, c);
      var flags := OrElse(w2.flags, OrElse(w1.flags, []));
      if w2.rationale.None? { return Run(Provenance, None, flags, false, 2, executed); }
      var v2 := c.violation(w2.rationale.value);
      if v2.Some? { return Run(Provenance, None, flags, false, 2, executed); }
      return Run(Written, w2.rationale, flags, true, 2, executed);
    }
  }

  /** The last of the first `k` calls reported as an accepted write, looked up by its id in the map of writes. */
  function Looked(reply: Reply, errors: seq<bool>, k: nat, textStandsIn: bool, writes: map<string, Write>): Proposal
    requires k <= |errors| == |reply.calls|
  {
    if k == 0 then Proposal(if textStandsIn && Trim(reply.text) != "" then Some(Trim(reply.text)) else None, None)
    else
      var call := reply.calls[k - 1];
      if call.tool == ReviewWrite && !errors[k - 1] && call.id in writes then Proposal(Some(writes[call.id].rationale), Some(writes[call.id].flags))
      else Looked(reply, errors, k - 1, textStandsIn, writes)
  }

  /** Looking the last accepted call up by its id finds that call's own write, whatever ids the model chose. */
  lemma LookedIsProposed(before: map<string, Write>, reply: Reply, errors: seq<bool>, budget: nat, textStandsIn: bool, c: Checks)
    requires |errors| == |reply.calls|
    requires forall k | 0 <= k < |errors| && reply.calls[k].tool == ReviewWrite :: errors[k] == (k >= budget || !Accepts(reply.calls[k], c))
    ensures var n := Spent(reply.calls, budget);
            Looked(reply, errors, |errors|, textStandsIn, WritesAfter(before, reply.calls[..n], c)) == Proposed(reply, n, textStandsIn, c)
  {
    hide Validate, WritesAfter;
    var n := Spent(reply.calls, budget);
    var writes := WritesAfter(before, reply.calls[..n], c);
    LookedSkips(reply, errors, n, textStandsIn, writes);
    AcceptedIsWritten(before, reply.calls[..n], c);
    LookedFinds(reply, errors, n, n, textStandsIn, before, writes, c);
  }

  lemma {:induction false} LookedSkips(reply: Reply, errors: seq<bool>, n: nat, textStandsIn: bool, writes: map<string, Write>)
    requires n <= |errors| == |reply.calls|
    requires forall k | n <= k < |errors| && reply.calls[k].tool == ReviewWrite :: errors[k]
    ensures Looked(reply, errors, |errors|, textStandsIn, writes) == Looked(reply, errors, n, textStandsIn, writes)
  {
    var k := |errors|;
    while k > n
      invariant n <= k <= |errors|
      invariant Looked(reply, errors, |errors|, textStandsIn, writes) == Looked(reply, errors, k, textStandsIn, writes)
    {
      k := k - 1;
    }
  }

  lemma {:induction false} LookedFinds(reply: Reply, errors: seq<bool>, k: nat, n: nat, textStandsIn: bool, before: map<string, Write>, writes: map<string, Write>, c: Checks)
    requires k <= n <= |errors| == |reply.calls|
    requires forall j | 0 <= j < n && reply.calls[j].tool == ReviewWrite :: errors[j] == !Accepts(reply.calls[j], c)
    requires writes == WritesAfter(before, reply.calls[..n], c)
    ensures var last := LastAccepted(reply.calls[..k], c);
            Looked(reply, errors, k, textStandsIn, writes) ==
              if last.Some? then (if last.value.id in writes then Proposal(Some(writes[last.value.id].rationale), Some(writes[last.value.id].flags)) else Proposal(None, None))
              else Proposal(if textStandsIn && Trim(reply.text) != "" then Some(Trim(reply.text)) else None, None)
  {
    hide Validate;
    if k > 0 {
      assert reply.calls[..k][..k - 1] == reply.calls[..k - 1];
      LookedFinds(reply, errors, k - 1, n, textStandsIn, before, writes, c);
      if Accepts(reply.calls[k - 1], c) { WriteStays(before, reply.calls[..n], k - 1, c); }
    }
  }

  /** An accepted call's id stays among the writes. */
  lemma {:induction false} WriteStays(before: map<string, Write>, calls: seq<Call>, k: nat, c: Checks)
    requires k < |calls| && Accepts(calls[k], c)
    ensures calls[k].id in WritesAfter(before, calls, c)
  {
    hide Validate;
    if k < |calls| - 1 { WriteStays(before, calls[..|calls| - 1], k, c); }
  }

  // ---- what every run keeps

  lemma ProposedIsGood(reply: Reply, spent: nat, textStandsIn: bool, c: Checks)
    requires spent <= |reply.calls|
    ensures var p := Proposed(reply, spent, textStandsIn, c); p.flags.Some? ==> GoodFlags(p.flags.value)
  {
    hide FLAGS, GoodFlags, LastAccepted;
    forall codes ensures GoodFlags(Allowed(codes)) { AllowedIsGood(codes); }
  }

  /**
   * Whatever the model does: the run takes one or two turns and is ok exactly when its outcome is written;
   * a written rationale passes the guard; the flags are allowed codes without repeats; and at most one
   * call beyond the budget is executed, exactly when a turn that spent it all is asked again and calls again.
   */
  lemma EveryRun(first: Reply, second: Reply, budget: nat, c: Checks)
    ensures var run := RunOf(first, second, budget, c);
            && 1 <= run.turns <= 2
            && (run.ok <==> run.outcome == Written)
            && (run.outcome == Written <==> run.rationale.Some?)
            && (run.rationale.Some? ==> c.violation(run.rationale.value).None?)
            && GoodFlags(run.flags)
            && run.executed <= budget + 1
            && (run.executed > budget <==> run.turns == 2 && |first.calls| >= budget && second.calls != [])
  {
    hide Proposed, FLAGS;
    ProposedIsGood(first, Spent(first.calls, budget), false, c);
    ProposedIsGood(second, Spent(second.calls, Remaining(first, budget)), true, c);
  }
}
